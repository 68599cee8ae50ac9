/** The roster read in user_id order.

    SQLite compares BLOB keys byte by byte. For keys of one length that is the order of the big-endian
    numbers they spell, so the roster is read through `OrderedTable`. */
module RosterOrder {
  import opened Bytes
  import opened Options
  import opened OrderedTable
  import opened UserRecord
  import opened Roster

  /** The number a byte string spells. */
  function Key(s: seq<byte>): nat {
    if s == [] then 0 else Key(s[..|s| - 1]) * 0x100 + s[|s| - 1]
  }

  function Spell(k: int, n: nat): (s: seq<byte>)
    ensures |s| == n
    decreases n
  {
    if n == 0 then [] else Spell(k / 0x100, n - 1) + [k % 0x100]
  }

  lemma {:induction false} SpellKey(s: seq<byte>)
    ensures Spell(Key(s), |s|) == s
  {
    if s != [] { SpellKey(s[..|s| - 1]); }
  }

  /** memcmp(s, t) < 0 */
  ghost predicate Less(s: seq<byte>, t: seq<byte>)
    requires |s| == |t|
  {
    exists i :: 0 <= i < |s| && s[i] < t[i] && s[..i] == t[..i]
  }

  /** The last byte decides only between equal prefixes. */
  lemma LessStep(s: seq<byte>, t: seq<byte>)
    requires |s| == |t| > 0
    ensures var n := |s| - 1;
      Less(s, t) <==> Less(s[..n], t[..n]) || (s[..n] == t[..n] && s[n] < t[n])
  {
    var n := |s| - 1;
    var s', t' := s[..n], t[..n];
    if Less(s', t') {
      var i :| 0 <= i < n && s'[i] < t'[i] && s'[..i] == t'[..i];
      assert s[i] < t[i] && s[..i] == s'[..i] && t[..i] == t'[..i];
    }
    if Less(s, t) {
      var i :| 0 <= i < |s| && s[i] < t[i] && s[..i] == t[..i];
      if i < n { assert s'[i] < t'[i] && s'[..i] == s[..i] && t'[..i] == t[..i]; }
    }
  }

  lemma {:induction false} KeyOrder(s: seq<byte>, t: seq<byte>)
    requires |s| == |t|
    ensures Less(s, t) <==> Key(s) < Key(t)
    ensures Key(s) == Key(t) <==> s == t
  {
    if s != [] {
      var n := |s| - 1;
      KeyOrder(s[..n], t[..n]);
      LessStep(s, t);
      assert s == s[..n] + [s[n]] && t == t[..n] + [t[n]];
    }
  }

  function IdOf(k: int): Id {
    Spell(k, 8)
  }

  // ---- Rows of the roster ----

  function Keys(t: Tables): set<int> {
    set id | id in t.users :: Key(id)
  }

  /** Nobody who is stored has two cards. */
  ghost predicate OneCardPerUser(t: Tables) {
    forall c, d | c in t.cards && d in t.cards && t.cards[c].userId == t.cards[d].userId
                  && t.cards[c].userId in t.users :: c == d
  }

  /** The joined card, all zero when there is none. */
  function CardOfUser(t: Tables, id: Id): (c: Id)
    requires OneCardPerUser(t) && id in t.users
    ensures (c in t.cards && t.cards[c].userId == id) || c == NO_ID
    ensures forall d | d in t.cards && t.cards[d].userId == id :: c == d
  {
    if exists c :: c in t.cards && t.cards[c].userId == id
    then var c :| c in t.cards && t.cards[c].userId == id; c
    else NO_ID
  }

  function RowAt(t: Tables, k: int): Entry
    requires OneCardPerUser(t) && IdOf(k) in t.users
  {
    Entry(t.users[IdOf(k)], CardOfUser(t, IdOf(k)))
  }

  lemma KeysMeaning(t: Tables)
    ensures |Keys(t)| == |t.users|
    ensures forall k | k in Keys(t) :: k >= 0 && IdOf(k) in t.users && Key(IdOf(k)) == k
    ensures forall id | id in t.users :: Key(id) in Keys(t) && IdOf(Key(id)) == id
  {
    forall id | id in t.users ensures IdOf(Key(id)) == id { SpellKey(id); }
    KeyCount(t.users.Keys, Keys(t));
  }

  lemma {:induction false} KeyCount(ids: set<Id>, keys: set<int>)
    requires keys == set id | id in ids :: Key(id)
    ensures |keys| == |ids|
  {
    if |ids| == 0 {
      assert keys == {};
    } else {
      var x := Pick(ids);
      var rest := ids - {x};
      var restKeys := set id | id in rest :: Key(id);
      KeyCount(rest, restKeys);
      forall id | id in rest ensures Key(id) != Key(x) { KeyOrder(id, x); }
      assert Key(x) !in restKeys;
      assert keys == restKeys + {Key(x)} by {
        forall k | k in keys ensures k in restKeys + {Key(x)} {
          var id :| id in ids && Key(id) == k;
          assert id == x || id in rest;
        }
      }
    }
  }

  lemma KeyNamesUser(t: Tables, k: int)
    requires k in Keys(t)
    ensures k >= 0 && IdOf(k) in t.users && Key(IdOf(k)) == k
  {
    KeysMeaning(t);
  }

  lemma UserHasKey(t: Tables, id: Id)
    requires id in t.users
    ensures Key(id) in Keys(t) && IdOf(Key(id)) == id
  {
    SpellKey(id);
  }

  lemma SortedCount(t: Tables)
    ensures |Sorted(Keys(t))| == |t.users|
  {
    KeysMeaning(t);
    SortedMembers(Keys(t));
  }

  /** The whole roster in user_id order. */
  ghost function Rows(t: Tables): (r: seq<Entry>)
    requires OneCardPerUser(t)
    ensures |r| == |t.users|
  {
    SortedCount(t);
    SortedMembers(Keys(t));
    var ks := Sorted(Keys(t));
    seq(|ks|, i requires 0 <= i < |ks| => assert ks[i] in ks; KeyNamesUser(t, ks[i]); RowAt(t, ks[i]))
  }

  // ---- The joined rows ----

  /** A row of `users LEFT JOIN user_cards`: a user and one of its cards, or no card when it has none. */
  datatype Joined = Joined(userId: Id, card: Option<Id>)

  ghost predicate InJoin(t: Tables, r: Joined) {
    r.userId in t.users &&
    match r.card
    case None => forall c | c in t.cards :: t.cards[c].userId != r.userId
    case Some(c) => c in t.cards && t.cards[c].userId == r.userId
  }

  function KeysOf(rows: seq<Joined>): (ks: seq<int>)
    ensures |ks| == |rows|
  {
    seq(|rows|, i requires 0 <= i < |rows| => Key(rows[i].userId))
  }

  /** The joined rows ordered by user_id. The order among the cards of one user is not prescribed. */
  ghost predicate IsJoin(t: Tables, rows: seq<Joined>) {
    && NonDescending(KeysOf(rows))
    && (forall i, j | 0 <= i < j < |rows| :: rows[i] != rows[j])
    && (forall r :: r in rows <==> InJoin(t, r))
  }

  function EntryOf(t: Tables, r: Joined): Entry
    requires r.userId in t.users
  {
    Entry(t.users[r.userId], if r.card.Some? then r.card.value else NO_ID)
  }

  /** Every user has a joined row. */
  lemma UserIsJoined(t: Tables, id: Id) returns (r: Joined)
    requires id in t.users
    ensures InJoin(t, r) && r.userId == id
  {
    if c :| c in t.cards && t.cards[c].userId == id {
      r := Joined(id, Some(c));
    } else {
      r := Joined(id, None);
    }
  }

  lemma JoinedKeys(t: Tables, rows: seq<Joined>)
    requires IsJoin(t, rows)
    ensures Members(KeysOf(rows)) == Keys(t)
  {
    var ks := KeysOf(rows);
    forall k | k in Keys(t) ensures k in ks {
      KeyNamesUser(t, k);
      var r := UserIsJoined(t, IdOf(k));
      assert r in rows;
      var i :| 0 <= i < |rows| && rows[i] == r;
      assert ks[i] == k;
    }
    forall k | k in ks ensures k in Keys(t) {
      var i :| 0 <= i < |ks| && ks[i] == k;
      assert rows[i] in rows;
    }
  }

  /** Two cards of one user are two rows in a row of the same key. */
  lemma TwoCardsRepeat(t: Tables, rows: seq<Joined>)
    requires IsJoin(t, rows)
    ensures OneCardPerUser(t) <==> Ascending(KeysOf(rows))
  {
    if OneCardPerUser(t) {
      forall i, j | 0 <= i < j < |rows| ensures KeysOf(rows)[i] < KeysOf(rows)[j] {
        assert rows[i] in rows && rows[j] in rows;
        KeyOrder(rows[i].userId, rows[j].userId);
      }
    } else {
      var c, d :| c in t.cards && d in t.cards && t.cards[c].userId == t.cards[d].userId
                  && t.cards[c].userId in t.users && c != d;
      SharedOwner(t, rows, c, d);
    }
  }

  lemma SharedOwner(t: Tables, rows: seq<Joined>, c: Id, d: Id)
    requires IsJoin(t, rows) && c != d
    requires c in t.cards && d in t.cards && t.cards[c].userId == t.cards[d].userId && t.cards[c].userId in t.users
    ensures !Ascending(KeysOf(rows))
  {
    var id := t.cards[c].userId;
    var x, y := Joined(id, Some(c)), Joined(id, Some(d));
    assert x in rows && y in rows;
    var i, j :| 0 <= i < |rows| && 0 <= j < |rows| && rows[i] == x && rows[j] == y;
    assert KeysOf(rows)[i] == KeysOf(rows)[j];
  }

  /** The join has more rows than there are users exactly when somebody has two cards. */
  lemma JoinCount(t: Tables, rows: seq<Joined>)
    requires IsJoin(t, rows)
    ensures |rows| >= |t.users|
    ensures |rows| == |t.users| <==> OneCardPerUser(t)
  {
    JoinedKeys(t, rows);
    KeysMeaning(t);
    MemberCount(KeysOf(rows));
    TwoCardsRepeat(t, rows);
  }

  /** With one card each, the join is the roster in user_id order. */
  lemma JoinIsRoster(t: Tables, rows: seq<Joined>)
    requires IsJoin(t, rows) && OneCardPerUser(t)
    ensures |rows| == |t.users| && KeysOf(rows) == Sorted(Keys(t)) && Ascending(KeysOf(rows))
    ensures forall i | 0 <= i < |rows| :: rows[i].userId in t.users && EntryOf(t, rows[i]) == Rows(t)[i]
  {
    JoinCount(t, rows);
    JoinedKeys(t, rows);
    TwoCardsRepeat(t, rows);
    AscendingIsSorted(KeysOf(rows));
    hide Ascending, NonDescending, Members, Sorted, Key, EntryOf;
    forall i | 0 <= i < |rows| ensures rows[i].userId in t.users && EntryOf(t, rows[i]) == Rows(t)[i] {
      assert rows[i] in rows;
      JoinedEntry(t, rows[i]);
      RowOfKey(t, i);
      assert Sorted(Keys(t))[i] == Key(rows[i].userId);
    }
  }

  /** A joined row shows the user and the only card. */
  lemma JoinedEntry(t: Tables, r: Joined)
    requires InJoin(t, r) && OneCardPerUser(t)
    ensures IdOf(Key(r.userId)) == r.userId && EntryOf(t, r) == RowAt(t, Key(r.userId))
  {
    SpellKey(r.userId);
    hide Key, Spell;
  }

  lemma RowOfKey(t: Tables, i: nat)
    requires OneCardPerUser(t) && i < |t.users|
    ensures |Sorted(Keys(t))| == |t.users| && IdOf(Sorted(Keys(t))[i]) in t.users
    ensures Rows(t)[i] == RowAt(t, Sorted(Keys(t))[i])
  {
    hide Key, Spell, Sorted, OneCardPerUser;
    SortedCount(t);
    SortedMembers(Keys(t));
    assert Sorted(Keys(t))[i] in Sorted(Keys(t));
    KeyNamesUser(t, Sorted(Keys(t))[i]);
  }
}
