/** Users one at a time (acud/usercmd.c): set, delete and get over the live roster. This path carries a
    card as 32 bytes of Proximity Data whose first eight bytes are the card number reversed. */
module UserCmd {
  import opened Bytes
  import opened Options
  import opened UserRecord
  import opened Roster
  import UserBin

  const OBJ_USER_INFO := 0x16
  const OBJ_USER_DATA := 0x21
  const USERDATA_LEN: nat := 112
  const DATA_OFF_NAME: nat := 32
  const DATA_OFF_CARD: nat := 48
  const DATA_OFF_RESTRICT: nat := 80
  const DATA_OFF_GROUP: nat := 96
  const PROX_LEN: nat := 32

  // ---- Card bytes ----

  method ProxToCardId(prox: seq<byte>) returns (card: Id)
    requires |prox| >= 8
    ensures card == UserBin.Reversed(prox[..8])
  {
    var c: seq<byte> := [];
    for i := 0 to 8
      invariant |c| == i && c == UserBin.Reversed(prox[..8])[..i]
    {
      c := c + [prox[7 - i]];
    }
    card := c;
  }

  method CardIdToProx(card: Id) returns (prox: seq<byte>)
    ensures prox == UserBin.Reversed(card) + Zeros(24)
  {
    prox := Zeros(PROX_LEN);
    for i := 0 to 8
      invariant |prox| == PROX_LEN && prox == UserBin.Reversed(card)[..i] + Zeros(PROX_LEN - i)
    {
      assert Zeros(PROX_LEN - i)[1..] == Zeros(PROX_LEN - i - 1);
      prox := prox[i := card[7 - i]];
    }
  }

  /** Both transfer paths name the same card: Proximity Data that reverses the bytes of a binary record
      yields the card id of that record, and the other way round. */
  lemma PathsAgree(card: Id, prox: seq<byte>)
    requires |prox| == PROX_LEN
    ensures UserBin.Reversed(UserBin.Reversed(card)) == card
    ensures prox[..8] == UserBin.Reversed(card) <==> UserBin.Reversed(prox[..8]) == card
    ensures (UserBin.Reversed(card) + Zeros(24))[..8] == UserBin.Reversed(card)
  {
    var r := UserBin.Reversed(prox[..8]);
    assert UserBin.Reversed(r) == prox[..8];
  }

  // ---- What a Set means ----

  predicate SetAccepted(data: seq<byte>) {
    |data| >= USERINFO_LEN && data[..8] != NO_ID
  }

  /** What is attached is told by the length alone. */
  function UserOf(data: seq<byte>): User
    requires |data| >= USERINFO_LEN
  {
    var u := ParseUserInfo(data[..USERINFO_LEN]);
    var named := if |data| >= DATA_OFF_CARD then u.(lcdName := data[DATA_OFF_NAME..DATA_OFF_CARD]) else u;
    if |data| < USERDATA_LEN then named
    else named.(restrictType := data[DATA_OFF_RESTRICT], restrictLimitType := data[DATA_OFF_RESTRICT + 1],
                restrictLimitCount := data[DATA_OFF_RESTRICT + 2],
                groupCodes := data[DATA_OFF_GROUP..DATA_OFF_GROUP + 16])
  }

  function CardsOf(data: seq<byte>): seq<Row>
    requires |data| >= USERINFO_LEN
  {
    if |data| < DATA_OFF_RESTRICT || data[DATA_OFF_CARD..DATA_OFF_CARD + 8] == NO_ID then []
    else [CardRow(Card(UserBin.Reversed(data[DATA_OFF_CARD..DATA_OFF_CARD + 8]), data[..8],
                       data[DATA_OFF_CARD..DATA_OFF_RESTRICT]))]
  }

  function AfterSet(t: Tables, data: seq<byte>): Tables
    requires |data| >= USERINFO_LEN
  {
    var t1 := t.Put(UserRow(UserOf(data)));
    if CardsOf(data) == [] then t1 else t1.Put(CardsOf(data)[0])
  }

  /** A user first, then the card; each is a change of its own. */
  function SetSteps(data: seq<byte>): seq<Step>
    requires |data| >= USERINFO_LEN
  {
    [PutOne(UserRow(UserOf(data)))] + (if CardsOf(data) == [] then [] else [PutOne(CardsOf(data)[0])])
  }

  method Set(db: UsersDb, data: seq<byte>) returns (ok: bool)
    requires db.Valid()
    modifies db`working, db`commits
    ensures db.Valid()
    ensures ok <==> SetAccepted(data)
    ensures ok <==> |data| >= 32 && exists i :: 0 <= i < 8 && data[i] != 0
    ensures db.State() == if ok then old(db.State()).AfterAll(SetSteps(data)) else old(db.State())
    ensures db.Roster() == if ok then AfterSet(old(db.Roster()), data) else old(db.Roster())
  {
    if |data| < USERINFO_LEN { return false; }
    var u := ParseUserInfo(data[..USERINFO_LEN]);
    assert u.userId == data[..8] && UserOf(data).userId == data[..8];
    if u.userId == NO_ID { return false; }
    var card32: seq<byte> := [];
    if |data| >= USERDATA_LEN {
      u := u.(lcdName := data[DATA_OFF_NAME..DATA_OFF_CARD]);
      card32 := data[DATA_OFF_CARD..DATA_OFF_RESTRICT];
      u := u.(restrictType := data[DATA_OFF_RESTRICT], restrictLimitType := data[DATA_OFF_RESTRICT + 1],
              restrictLimitCount := data[DATA_OFF_RESTRICT + 2],
              groupCodes := data[DATA_OFF_GROUP..DATA_OFF_GROUP + 16]);
    } else if |data| >= USERINFO_LEN + 16 + PROX_LEN {
      u := u.(lcdName := data[DATA_OFF_NAME..DATA_OFF_CARD]);
      card32 := data[DATA_OFF_CARD..DATA_OFF_RESTRICT];
    } else if |data| >= USERINFO_LEN + 16 {
      u := u.(lcdName := data[DATA_OFF_NAME..DATA_OFF_CARD]);
    }
    assert u == UserOf(data);
    Store(db, u, card32, data);
    ok := true;
  }

  /** The user, and the card when one is attached and not all zero. */
  method Store(db: UsersDb, u: User, card32: seq<byte>, ghost data: seq<byte>)
    requires db.Valid() && SetAccepted(data) && u == UserOf(data) && u.userId == data[..8]
    requires card32 == if |data| < DATA_OFF_RESTRICT then [] else data[DATA_OFF_CARD..DATA_OFF_RESTRICT]
    modifies db`working, db`commits
    ensures db.Valid()
    ensures db.State() == old(db.State()).AfterAll(SetSteps(data))
    ensures db.Roster() == AfterSet(old(db.Roster()), data)
  {
    ghost var s := db.State();
    StepsOf(s, data);
    db.Put(UserRow(u));
    if card32 != [] && card32[..8] != NO_ID {
      assert card32[..8] == data[DATA_OFF_CARD..DATA_OFF_CARD + 8];
      var id := ProxToCardId(card32);
      CardAttached(data, id, card32);
      db.Put(CardRow(Card(id, u.userId, card32)));
    }
  }

  lemma CardAttached(data: seq<byte>, id: Id, card32: seq<byte>)
    requires |data| >= DATA_OFF_RESTRICT && card32 == data[DATA_OFF_CARD..DATA_OFF_RESTRICT]
    requires card32[..8] != NO_ID && id == UserBin.Reversed(card32[..8])
    ensures CardsOf(data) == [CardRow(Card(id, data[..8], card32))]
  {
    hide UserBin.Reversed;
    assert card32[..8] == data[DATA_OFF_CARD..DATA_OFF_CARD + 8];
  }

  lemma StepsOf(s: Service, data: seq<byte>)
    requires |data| >= USERINFO_LEN
    ensures var s1 := s.After(PutOne(UserRow(UserOf(data))));
      s.AfterAll(SetSteps(data)) == if CardsOf(data) == [] then s1 else s1.After(PutOne(CardsOf(data)[0]))
  {
    hide UserOf, CardsOf;
    var first := PutOne(UserRow(UserOf(data)));
    AfterLast(s, [], first);
    assert [] + [first] == [first];
    if CardsOf(data) != [] { AfterLast(s, [first], PutOne(CardsOf(data)[0])); }
  }

  /** How much is attached: 32 bytes are the User Info alone, from 48 on there is a name, from 80 on a card, and
      at 112 the limits and the groups; what is not attached is zero. */
  lemma Attached(data: seq<byte>)
    requires SetAccepted(data)
    ensures |data| >= 32 && data[..8] != Zeros(8)
    ensures var u, n := UserOf(data), |data|;
      && SameInfo(u, ParseUserInfo(data[..32])) && u.userId == data[..8]
      && u.lcdName == (if n >= 48 then data[32..48] else Zeros(16))
      && (if n >= 112 then
            [u.restrictType, u.restrictLimitType, u.restrictLimitCount] == data[80..83] && u.groupCodes == data[96..112]
          else u.restrictType == u.restrictLimitType == u.restrictLimitCount == 0 && u.groupCodes == Zeros(16))
    ensures CardsOf(data) == [] <==> |data| < 80 || data[48..56] == Zeros(8)
    ensures CardsOf(data) != [] ==>
      CardsOf(data) == [CardRow(Card(UserBin.Reversed(data[48..56]), data[..8], data[48..80]))]
  {
    assert Zeros(8) == NO_ID;
    assert data[..32][..8] == data[..8];
  }

  /** At the doors: the card that was set, if any, lets in the user as just set, so do the cards that this user
      held before, and every other card works as before. */
  lemma SetAtTheDoors(t: Tables, data: seq<byte>, card: Id)
    requires SetAccepted(data)
    ensures AfterSet(t, data).LookupByCard(card) ==
      if |data| >= 80 && data[48..56] != Zeros(8) && (forall i | 0 <= i < 8 :: card[i] == data[55 - i])
      then Some(UserOf(data))
      else if card in t.cards && t.cards[card].userId == data[..8] then Some(UserOf(data))
      else t.LookupByCard(card)
  {
    Attached(data);
    LookupAfterPut(t, UserRow(UserOf(data)), card);
    if |data| >= 80 { ReversedIs(data[48..56], card); }
    hide UserOf, CardsOf, UserBin.Reversed, SetAccepted, Tables.LookupByCard;
    if CardsOf(data) != [] {
      LookupAfterPut(t.Put(UserRow(UserOf(data))), CardsOf(data)[0], card);
    }
  }

  lemma ReversedIs(s: Id, card: Id)
    ensures card == UserBin.Reversed(s) <==> forall i | 0 <= i < 8 :: card[i] == s[7 - i]
  {
  }

  // ---- Delete ----

  method Delete(db: UsersDb, data: seq<byte>) returns (ok: bool)
    requires db.Valid()
    modifies db`working, db`commits
    ensures db.Valid()
    ensures ok <==> |data| >= 8
    ensures db.State() == if ok then old(db.State()).After(Remove(data[..8])) else old(db.State())
    ensures db.Roster() == if ok then Without(old(db.Roster()), data[..8]) else old(db.Roster())
  {
    if |data| < 8 { return false; }
    db.Delete(data[..8]);
    ok := true;
  }

  /** After a deletion no card of that user opens anything, and every other card works as before. */
  lemma DeleteShutsOut(t: Tables, userId: Id, card: Id)
    ensures var t' := Without(t, userId);
      t'.LookupByCard(card) ==
        if card in t.cards && t.cards[card].userId == userId then None else t.LookupByCard(card)
    ensures userId !in Without(t, userId).users
    ensures forall id | id != userId ::
      && (id in Without(t, userId).users <==> id in t.users)
      && (id in t.users ==> Without(t, userId).users[id] == t.users[id])
  {
  }

  // ---- Get ----

  /** The card of a user: any one of them, when there are several. */
  ghost predicate IsCardField(t: Tables, userId: Id, field: seq<byte>) {
    || (exists c :: c in t.cards && t.cards[c].userId == userId
          && field == UserBin.Reversed(t.cards[c].cardId) + Zeros(24))
    || ((forall c | c in t.cards :: t.cards[c].userId != userId) && field == Zeros(PROX_LEN))
  }

  function NameAndInfo(u: User): (s: seq<byte>)
    ensures |s| == DATA_OFF_CARD
  {
    BuildUserInfo(u) + u.lcdName
  }

  function Limits(u: User): (s: seq<byte>)
    ensures |s| == USERDATA_LEN - DATA_OFF_RESTRICT
  {
    [u.restrictType, u.restrictLimitType, u.restrictLimitCount] + Zeros(13) + u.groupCodes
  }

  ghost predicate IsAnswer(t: Tables, obj: byte, userId: Id, out: seq<byte>) {
    userId in t.users &&
    (var u := t.users[userId];
     if obj == 0x16 then out == NameAndInfo(u)
     else
       && |out| == USERDATA_LEN
       && out[..DATA_OFF_CARD] == NameAndInfo(u)
       && IsCardField(t, u.userId, out[DATA_OFF_CARD..DATA_OFF_RESTRICT])
       && out[DATA_OFF_RESTRICT..] == Limits(u))
  }

  method LookupCardByUser(t: Tables, userId: Id) returns (r: Option<Card>)
    ensures r.Some? ==> exists c :: c in t.cards && t.cards[c] == r.value && r.value.userId == userId
    ensures r.None? ==> forall c | c in t.cards :: t.cards[c].userId != userId
  {
    if c: Id :| c in t.cards && t.cards[c].userId == userId {
      r := Some(t.cards[c]);
    } else {
      r := None;
    }
  }

  method Get(db: UsersDb, obj: byte, data: seq<byte>) returns (ok: bool, out: seq<byte>)
    requires db.Valid()
    ensures ok <==> |data| >= 8 && data[..8] in db.Roster().users
    ensures ok ==> IsAnswer(db.Roster(), obj, data[..8], out)
    ensures !ok ==> out == []
  {
    if |data| < 8 { return false, []; }
    var t := db.working.Live();
    if data[..8] !in t.users { return false, []; }
    var u := t.users[data[..8]];
    out := NameAndInfo(u);
    if obj == OBJ_USER_INFO { return true, out; }
    var card := LookupCardByUser(t, u.userId);
    var field := Zeros(PROX_LEN);
    if card.Some? { field := CardIdToProx(card.value.cardId); }
    out := out + field + Limits(u);
    ok := true;
    assert out[DATA_OFF_CARD..DATA_OFF_RESTRICT] == field;
  }

  // ---- Set, then Get ----

  /** The bytes of a 112-byte User Data that mean something; the others come back as zero. */
  function Canonical(data: seq<byte>): (c: seq<byte>)
    requires |data| == USERDATA_LEN
  {
    data[..DATA_OFF_CARD][9 := 0] + data[DATA_OFF_CARD..DATA_OFF_CARD + 8] + Zeros(24)
    + data[DATA_OFF_RESTRICT..DATA_OFF_RESTRICT + 3] + Zeros(13) + data[DATA_OFF_GROUP..]
  }

  /** The user holds no card other than the one in the data. */
  ghost predicate NoOtherCard(t: Tables, data: seq<byte>)
    requires |data| == USERDATA_LEN
  {
    forall c | c in t.cards && t.cards[c].userId == data[..8] ::
      data[DATA_OFF_CARD..DATA_OFF_CARD + 8] != NO_ID && c == UserBin.Reversed(data[DATA_OFF_CARD..DATA_OFF_CARD + 8])
  }

  /** The card table is keyed by the card number, and neither path stores an all-zero card. */
  ghost predicate CardsKeyed(t: Tables) {
    forall c | c in t.cards :: c != NO_ID && t.cards[c].cardId == c
  }

  lemma NameAndInfoBack(data: seq<byte>)
    requires |data| == USERDATA_LEN
    ensures NameAndInfo(UserOf(data)) == data[..DATA_OFF_CARD][9 := 0]
    ensures Limits(UserOf(data)) == data[DATA_OFF_RESTRICT..DATA_OFF_RESTRICT + 3] + Zeros(13) + data[DATA_OFF_GROUP..]
  {
    InfoRebuilds(data[..USERINFO_LEN]);
    InfoIgnoresRest(ParseUserInfo(data[..USERINFO_LEN]), UserOf(data));
    assert data[..DATA_OFF_CARD][9 := 0] == data[..USERINFO_LEN][9 := 0] + data[DATA_OFF_NAME..DATA_OFF_CARD];
    assert data[DATA_OFF_GROUP..DATA_OFF_GROUP + 16] == data[DATA_OFF_GROUP..];
  }

  lemma ReversedTwice(s: seq<byte>)
    ensures UserBin.Reversed(UserBin.Reversed(s)) == s
  {
  }

  /** The rows of this user after a Set. */
  lemma RowsAfterSet(t: Tables, data: seq<byte>)
    requires |data| == USERDATA_LEN && SetAccepted(data)
    ensures var t' := AfterSet(t, data);
      var card := data[DATA_OFF_CARD..DATA_OFF_CARD + 8];
      && UserOf(data).userId == data[..8]
      && data[..8] in t'.users && t'.users[data[..8]] == UserOf(data)
      && (card != NO_ID ==>
            var c := UserBin.Reversed(card);
            c in t'.cards && t'.cards[c].cardId == c && t'.cards[c].userId == data[..8])
      && (forall c | !(card != NO_ID && c == UserBin.Reversed(card)) ::
            (c in t'.cards <==> c in t.cards) && (c in t.cards ==> t'.cards[c] == t.cards[c]))
  {
    assert data[..USERINFO_LEN][..8] == data[..8];
  }

  lemma CardFieldAfterSet(t: Tables, data: seq<byte>, field: seq<byte>)
    requires |data| == USERDATA_LEN && SetAccepted(data) && CardsKeyed(t) && NoOtherCard(t, data)
    requires IsCardField(AfterSet(t, data), data[..8], field)
    ensures field == data[DATA_OFF_CARD..DATA_OFF_CARD + 8] + Zeros(24)
  {
    RowsAfterSet(t, data);
    var t' := AfterSet(t, data);
    var card := data[DATA_OFF_CARD..DATA_OFF_CARD + 8];
    ReversedTwice(card);
    assert Zeros(PROX_LEN) == NO_ID + Zeros(24);
    hide AfterSet, UserOf, CardsOf, UserBin.Reversed, Zeros, SetAccepted;
    if c :| c in t'.cards && t'.cards[c].userId == data[..8]
            && field == UserBin.Reversed(t'.cards[c].cardId) + Zeros(24) {
      assert c == UserBin.Reversed(card);
    }
  }

  lemma AnswerParts(data: seq<byte>, out: seq<byte>)
    requires |data| == |out| == USERDATA_LEN
    requires out[..DATA_OFF_CARD] == NameAndInfo(UserOf(data)) && out[DATA_OFF_RESTRICT..] == Limits(UserOf(data))
    requires out[DATA_OFF_CARD..DATA_OFF_RESTRICT] == data[DATA_OFF_CARD..DATA_OFF_CARD + 8] + Zeros(24)
    ensures out == Canonical(data)
  {
    hide NameAndInfo, Limits, UserOf, Zeros;
    NameAndInfoBack(data);
    assert out == out[..DATA_OFF_CARD] + out[DATA_OFF_CARD..DATA_OFF_RESTRICT] + out[DATA_OFF_RESTRICT..];
  }

  lemma OnlyCardReturns(t: Tables, data: seq<byte>, out: seq<byte>)
    requires |data| == USERDATA_LEN && SetAccepted(data) && CardsKeyed(t) && NoOtherCard(t, data)
    requires IsAnswer(AfterSet(t, data), OBJ_USER_DATA, data[..8], out)
    ensures out == Canonical(data)
  {
    hide AfterSet, NoOtherCard, IsCardField, CardsKeyed, NameAndInfo, Limits, UserOf, Zeros;
    RowsAfterSet(t, data);
    CardFieldAfterSet(t, data, out[DATA_OFF_CARD..DATA_OFF_RESTRICT]);
    AnswerParts(data, out);
  }

  /** A card that is not the one in the data can still be shown for the user. */
  lemma OtherCardShown(t: Tables, data: seq<byte>, c: Id)
    requires |data| == USERDATA_LEN && SetAccepted(data) && CardsKeyed(t)
    requires c in t.cards && t.cards[c].userId == data[..8]
    requires var card := data[DATA_OFF_CARD..DATA_OFF_CARD + 8]; !(card != NO_ID && c == UserBin.Reversed(card))
    ensures IsCardField(AfterSet(t, data), data[..8], UserBin.Reversed(c) + Zeros(24))
    ensures UserBin.Reversed(c) != data[DATA_OFF_CARD..DATA_OFF_CARD + 8]
  {
    RowsAfterSet(t, data);
    ReversedTwice(c);
    assert UserBin.Reversed(NO_ID) == NO_ID;
    hide AfterSet, UserOf, CardsOf, UserBin.Reversed;
    assert AfterSet(t, data).cards[c] == t.cards[c];
  }

  lemma OtherCardReturns(t: Tables, data: seq<byte>) returns (out: seq<byte>)
    requires |data| == USERDATA_LEN && SetAccepted(data) && CardsKeyed(t) && !NoOtherCard(t, data)
    ensures IsAnswer(AfterSet(t, data), OBJ_USER_DATA, data[..8], out)
    ensures out != Canonical(data)
  {
    RowsAfterSet(t, data);
    var card := data[DATA_OFF_CARD..DATA_OFF_CARD + 8];
    var c :| c in t.cards && t.cards[c].userId == data[..8] && !(card != NO_ID && c == UserBin.Reversed(card));
    OtherCardShown(t, data, c);
    hide UserOf, AfterSet, CardsOf, Canonical, NameAndInfo, Limits, UserBin.Reversed, IsCardField;
    out := AnswerWith(UserOf(data), UserBin.Reversed(c) + Zeros(24));
    DiffersInCard(out, data, UserBin.Reversed(c));
  }

  lemma AnswerWith(u: User, field: seq<byte>) returns (out: seq<byte>)
    requires |field| == PROX_LEN
    ensures |out| == USERDATA_LEN
    ensures out[..DATA_OFF_CARD] == NameAndInfo(u) && out[DATA_OFF_CARD..DATA_OFF_RESTRICT] == field
    ensures out[DATA_OFF_RESTRICT..] == Limits(u) && out[DATA_OFF_CARD..DATA_OFF_CARD + 8] == field[..8]
  {
    out := NameAndInfo(u) + field + Limits(u);
  }

  lemma DiffersInCard(out: seq<byte>, data: seq<byte>, shown: seq<byte>)
    requires |out| == |data| == USERDATA_LEN && |shown| == 8
    requires out[DATA_OFF_CARD..DATA_OFF_CARD + 8] == (shown + Zeros(24))[..8]
    requires shown != data[DATA_OFF_CARD..DATA_OFF_CARD + 8]
    ensures out != Canonical(data)
  {
    assert (shown + Zeros(24))[..8] == shown;
    assert Canonical(data)[DATA_OFF_CARD..DATA_OFF_CARD + 8] == data[DATA_OFF_CARD..DATA_OFF_CARD + 8];
  }

  /** What was set is what a Get returns, exactly when the user holds no other card; re-registering with
      a new card leaves the old row, and a Get may then answer with it. */
  lemma SetThenGet(t: Tables, data: seq<byte>)
    requires |data| == USERDATA_LEN && SetAccepted(data) && CardsKeyed(t)
    ensures NoOtherCard(t, data) <==>
      forall out :: IsAnswer(AfterSet(t, data), OBJ_USER_DATA, data[..8], out) ==> out == Canonical(data)
  {
    if NoOtherCard(t, data) {
      forall out | IsAnswer(AfterSet(t, data), OBJ_USER_DATA, data[..8], out) ensures out == Canonical(data) {
        OnlyCardReturns(t, data, out);
      }
    } else {
      var out := OtherCardReturns(t, data);
    }
  }
}
