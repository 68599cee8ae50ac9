/** The user store of acud/users.c: live tables that serve lookups, and staging tables that a full
    download fills in batches of 5,000 rows per transaction and that replace the live ones in a single
    transaction.

    The database is modelled by its committed contents, oldest first, and the content the connection
    sees. Power loss falls back to any committed content (WAL with synchronous=NORMAL may lose the
    latest commits, never part of one), so it also covers a failure in the middle of a method. */
module Roster {
  import opened Bytes
  import opened Options
  import opened UserRecord

  const LOAD_COMMIT_EVERY := 5000

  datatype Card = Card(cardId: Id, userId: Id, proxRaw: seq<byte>)

  type UserTable = map<Id, User>
  type CardTable = map<Id, Card>

  /** A complete roster. */
  datatype Tables = Tables(users: UserTable, cards: CardTable) {

    /** SELECT ... WHERE user_id = (SELECT user_id FROM user_cards WHERE card_id = ?) */
    function LookupByCard(cardId: Id): Option<User> {
      if cardId in cards && cards[cardId].userId in users then Some(users[cards[cardId].userId]) else None
    }

    /** INSERT OR REPLACE keyed by the primary key. */
    function Put(p: Row): Tables {
      match p
      case UserRow(u) => this.(users := users[u.userId := u])
      case CardRow(c) => this.(cards := cards[c.cardId := c])
    }
  }

  datatype Row = UserRow(user: User) | CardRow(card: Card)

  /** A user and every card of that user removed. */
  function Without(t: Tables, userId: Id): Tables {
    Tables(t.users - {userId}, map c | c in t.cards && t.cards[c].userId != userId :: t.cards[c])
  }

  const EMPTY := Tables(map[], map[])

  /** What a run of inserts leaves behind. */
  function Fold(rows: seq<Row>): Tables {
    if rows == [] then EMPTY else Fold(rows[..|rows| - 1]).Put(rows[|rows| - 1])
  }

  predicate IsLastUser(rows: seq<Row>, i: nat, id: Id) {
    && i < |rows| && rows[i].UserRow? && rows[i].user.userId == id
    && forall j | i < j < |rows| :: rows[j].UserRow? ==> rows[j].user.userId != id
  }

  predicate IsLastCard(rows: seq<Row>, i: nat, id: Id) {
    && i < |rows| && rows[i].CardRow? && rows[i].card.cardId == id
    && forall j | i < j < |rows| :: rows[j].CardRow? ==> rows[j].card.cardId != id
  }

  /** The last row written for a key is the one that stays, and no other key appears. */
  lemma {:induction false} LastUserWins(rows: seq<Row>, id: Id)
    ensures id in Fold(rows).users <==> exists i :: 0 <= i < |rows| && IsLastUser(rows, i, id)
    ensures forall i | 0 <= i < |rows| && IsLastUser(rows, i, id) :: Fold(rows).users[id] == rows[i].user
  {
    if rows != [] {
      var n := |rows| - 1;
      var init := rows[..n];
      LastUserWins(init, id);
      if rows[n].UserRow? && rows[n].user.userId == id {
        assert IsLastUser(rows, n, id);
      } else {
        assert forall i | 0 <= i < n :: IsLastUser(rows, i, id) <==> IsLastUser(init, i, id);
      }
    }
  }

  lemma {:induction false} LastCardWins(rows: seq<Row>, id: Id)
    ensures id in Fold(rows).cards <==> exists i :: 0 <= i < |rows| && IsLastCard(rows, i, id)
    ensures forall i | 0 <= i < |rows| && IsLastCard(rows, i, id) :: Fold(rows).cards[id] == rows[i].card
  {
    if rows != [] {
      var n := |rows| - 1;
      var init := rows[..n];
      LastCardWins(init, id);
      if rows[n].CardRow? && rows[n].card.cardId == id {
        assert IsLastCard(rows, n, id);
      } else {
        assert forall i | 0 <= i < n :: IsLastCard(rows, i, id) <==> IsLastCard(init, i, id);
      }
    }
  }

  /** Whom a card opens the door for: the stored user that the card row names, and nobody else. */
  lemma LookupFinds(t: Tables, cardId: Id, u: User)
    ensures t.LookupByCard(cardId) == Some(u) <==>
      cardId in t.cards && t.cards[cardId].userId in t.users && t.users[t.cards[cardId].userId] == u
  {
  }

  /** In a loaded roster that is the last user row of the owner whom the last row of the card names. */
  lemma LoadedLookup(rows: seq<Row>, cardId: Id, u: User)
    ensures Fold(rows).LookupByCard(cardId) == Some(u) <==>
      exists i, j :: 0 <= i < |rows| && 0 <= j < |rows| && IsLastCard(rows, i, cardId)
                     && IsLastUser(rows, j, rows[i].card.userId) && rows[j].user == u
  {
    LastCardWins(rows, cardId);
    LookupFinds(Fold(rows), cardId, u);
    hide Fold;
    if cardId in Fold(rows).cards {
      LastUserWins(rows, Fold(rows).cards[cardId].userId);
    }
  }

  /** After a single row is put: a card row decides for its card, a user row for the cards of its user, and
      nothing else changes. */
  lemma LookupAfterPut(t: Tables, row: Row, cardId: Id)
    ensures var before, after := t.LookupByCard(cardId), t.Put(row).LookupByCard(cardId);
      match row
      case CardRow(c) =>
        after == (if cardId != c.cardId then before else if c.userId in t.users then Some(t.users[c.userId]) else None)
      case UserRow(u) =>
        after == (if cardId in t.cards && t.cards[cardId].userId == u.userId then Some(u) else before)
  {
  }

  // ---- Runs ----

  datatype Step =
    | Begin
    | Take(row: Row)
    | Abort
    | Commit
    | PutOne(row: Row)
    | Remove(userId: Id)
    | PowerLoss(kept: nat)

  /** What lookups are answered from; the live tables of every commit, oldest first; and, while a load is
      in progress, the rows staged so far and how many of them are in the open batch. */
  datatype Service = Service(live: Tables, lives: seq<Tables>, staged: Option<seq<Row>>, batch: int) {

    /** What is left when the open transaction is thrown away. */
    function Settled(): Tables {
      if lives == [] then live else lives[|lives| - 1]
    }

    predicate Quiet() { live == Settled() }

    function Aborted(): Service {
      Service(Settled(), lives + [Settled(), Settled()], None, 0)
    }

    /** A full batch is committed, with whatever else was changed in its transaction. */
    function Taken(row: Row): Service
      requires staged.Some?
    {
      var rows := Some(staged.value + [row]);
      if batch + 1 >= LOAD_COMMIT_EVERY then Service(live, lives + [live], rows, 0)
      else Service(live, lives, rows, batch + 1)
    }

    function After(step: Step): Service {
      match step
      case Begin =>
        var s := if staged.Some? then Aborted() else this;
        var t := s.Settled();
        Service(t, s.lives + [t, t, t, t], Some([]), 0)
      case Take(row) => if staged.Some? then Taken(row) else this
      case Abort => Aborted()
      case Commit =>
        if staged.None? then this
        else var t := Fold(staged.value); Service(t, lives + [live, t], None, 0)
      case PutOne(row) =>
        var t := live.Put(row);
        this.(live := t, lives := if staged.Some? then lives else lives + [t])
      case Remove(userId) =>
        var t := Without(live, userId);
        this.(live := t, lives := if staged.Some? then lives else lives + [Tables(live.users, t.cards), t])
      case PowerLoss(kept) =>
        if 1 <= kept <= |lives| then Service(lives[kept - 1], lives[..kept], None, 0).Aborted() else this
    }

    function AfterAll(steps: seq<Step>): Service {
      if steps == [] then this else AfterAll(steps[..|steps| - 1]).After(steps[|steps| - 1])
    }
  }

  /** A step of a load, or its loss; a power failure keeps at least the first `commits` commits. */
  predicate LoadStep(step: Step, commits: nat) {
    match step
    case Begin => true
    case Take(_) => true
    case Abort => true
    case PowerLoss(kept) => kept >= commits
    case _ => false
  }

  /** Lookups as in `s`, and nothing else committed since. */
  predicate StillServes(s: Service, r: Service) {
    && r.live == s.live && |r.lives| >= |s.lives| > 0
    && forall i | |s.lives| - 1 <= i < |r.lives| :: r.lives[i] == s.live
  }

  lemma LoadStepServes(s: Service, r: Service, step: Step)
    requires StillServes(s, r) && LoadStep(step, |s.lives|)
    ensures StillServes(s, r.After(step))
  {
    hide Fold, Without;
  }

  /** Loads begun, filled, dropped, and cut off by power failures that may lose any of their batches: no
      lookup changes. */
  lemma {:induction false} LoadsChangeNoLookups(s: Service, steps: seq<Step>, card: Id)
    requires s.Quiet() && s.lives != []
    requires forall i | 0 <= i < |steps| :: LoadStep(steps[i], |s.lives|)
    ensures StillServes(s, s.AfterAll(steps))
    ensures s.AfterAll(steps).live.LookupByCard(card) == s.live.LookupByCard(card)
  {
    if steps != [] {
      hide StillServes;
      var n := |steps| - 1;
      LoadsChangeNoLookups(s, steps[..n], card);
      LoadStepServes(s, s.AfterAll(steps[..n]), steps[n]);
      SameLookups(s, s.AfterAll(steps), card);
    }
  }

  lemma SameLookups(s: Service, r: Service, card: Id)
    requires StillServes(s, r)
    ensures r.live.LookupByCard(card) == s.live.LookupByCard(card)
  {
  }

  function Takes(rows: seq<Row>): (r: seq<Step>)
    ensures |r| == |rows| && forall i | 0 <= i < |r| :: r[i] == Take(rows[i])
  {
    seq(|rows|, i requires 0 <= i < |rows| => Take(rows[i]))
  }

  lemma AfterLast(s: Service, steps: seq<Step>, step: Step)
    ensures s.AfterAll(steps + [step]) == s.AfterAll(steps).After(step)
  {
    assert (steps + [step])[..|steps|] == steps;
  }

  lemma TakesLast(steps: seq<Step>, rows: seq<Row>)
    requires rows != []
    ensures steps + Takes(rows) == steps + Takes(rows[..|rows| - 1]) + [Take(rows[|rows| - 1])]
  {
  }

  lemma {:induction false} StagesInOrder(s: Service, steps: seq<Step>, rows: seq<Row>)
    requires s.AfterAll(steps).staged == Some([])
    ensures s.AfterAll(steps + Takes(rows)).staged == Some(rows)
  {
    if rows == [] {
      assert steps + Takes(rows) == steps;
    } else {
      var n := |rows| - 1;
      StagesInOrder(s, steps, rows[..n]);
      TakesLast(steps, rows);
      AfterLast(s, steps + Takes(rows[..n]), Take(rows[n]));
      assert rows[..n] + [rows[n]] == rows;
    }
  }

  /** After anything whatever, a load from its beginning to its commit puts exactly its own rows in force. */
  lemma WholeLoad(s: Service, before: seq<Step>, rows: seq<Row>)
    ensures var r := s.AfterAll(before + [Begin] + Takes(rows) + [Commit]);
      r.live == Fold(rows) && r.Quiet() && r.staged == None
  {
    AfterLast(s, before, Begin);
    StagesInOrder(s, before + [Begin], rows);
    AfterLast(s, before + [Begin] + Takes(rows), Commit);
  }

  /** `r` is `s` after n more rows: once the batch was full, the live tables are settled as they are. */
  predicate Filled(s: Service, r: Service, rows: seq<Row>)
    requires s.staged.Some?
  {
    && r.staged == Some(s.staged.value + rows) && r.live == s.live && r.lives != []
    && 0 <= r.batch < LOAD_COMMIT_EVERY
    && (if s.batch + |rows| >= LOAD_COMMIT_EVERY then r.Settled() == s.live
        else r.Settled() == s.Settled() && r.batch == s.batch + |rows|)
  }

  lemma FillsOn(s: Service, r: Service, rows: seq<Row>, row: Row)
    requires s.staged.Some? && Filled(s, r, rows)
    ensures Filled(s, r.After(Take(row)), rows + [row])
  {
    assert s.staged.value + rows + [row] == s.staged.value + (rows + [row]);
  }

  lemma {:induction false} BatchSettles(s: Service, rows: seq<Row>)
    requires s.staged.Some? && 0 <= s.batch < LOAD_COMMIT_EVERY && s.lives != []
    ensures Filled(s, s.AfterAll(Takes(rows)), rows)
  {
    if rows == [] {
      assert s.staged.value + rows == s.staged.value;
    } else {
      hide Filled;
      var init, last := rows[..|rows| - 1], rows[|rows| - 1];
      BatchSettles(s, init);
      assert Takes(rows) == Takes(init) + [Take(last)];
      AfterLast(s, Takes(init), Take(last));
      FillsOn(s, s.AfterAll(Takes(init)), init, last);
      assert init + [last] == rows;
    }
  }

  /** How many batches n more rows fill, and what is left in the open one. */
  lemma {:induction false} BatchesFilled(s: Service, rows: seq<Row>)
    requires s.staged.Some? && 0 <= s.batch < 5000
    ensures var r := s.AfterAll(Takes(rows));
      && |r.lives| == |s.lives| + (s.batch + |rows|) / 5000 && r.batch == (s.batch + |rows|) % 5000
      && r.staged.Some?
  {
    if rows != [] {
      var init, last := rows[..|rows| - 1], rows[|rows| - 1];
      BatchesFilled(s, init);
      assert Takes(rows) == Takes(init) + [Take(last)];
      AfterLast(s, Takes(init), Take(last));
    }
  }

  /** A load commits once for every 5,000 of its rows before it is swapped in. */
  lemma LoadCommits(s: Service, rows: seq<Row>)
    ensures var r := s.After(Begin);
      |r.AfterAll(Takes(rows)).lives| == |r.lives| + |rows| / 5000
  {
    BatchesFilled(s.After(Begin), rows);
  }

  /** After a power failure the live tables of the last commit that survived are served, and no load is open. */
  lemma PowerLossServes(s: Service, kept: nat)
    requires 1 <= kept <= |s.lives|
    ensures var r := s.After(PowerLoss(kept));
      r.live == s.lives[kept - 1] && r.Quiet() && r.staged == None && s.lives[..kept] <= r.lives
  {
  }

  /** A single-user change while a load is open is in force at once but shares the load's transaction: when
      the load is dropped it stays if and only if a batch was filled after it, or it changed nothing ... */
  lemma ChangeDuringLoad(s: Service, change: Step, rows: seq<Row>)
    requires s.staged.Some? && 0 <= s.batch < LOAD_COMMIT_EVERY && s.lives != []
    requires change.PutOne? || change.Remove?
    ensures var changed := s.After(change);
      s.After(change).AfterAll(Takes(rows)).After(Abort).live == changed.live
      <==> s.batch + |rows| >= 5000 || changed.live == s.Settled()
  {
    BatchSettles(s.After(change), rows);
  }

  /** ... and when the load is committed it is gone. */
  lemma ChangeReplaced(s: Service, change: Step, rows: seq<Row>)
    requires s.staged.Some? && 0 <= s.batch < LOAD_COMMIT_EVERY && s.lives != []
    requires change.PutOne? || change.Remove?
    ensures s.After(change).AfterAll(Takes(rows)).After(Commit).live == Fold(s.staged.value + rows)
  {
    BatchSettles(s.After(change), rows);
  }

  // ---- The database ----

  /** The tables that exist. */
  datatype Content = Content(users: Option<UserTable>, cards: Option<CardTable>,
                             usersLoad: Option<UserTable>, cardsLoad: Option<CardTable>) {
    predicate HasLive() { users.Some? && cards.Some? }
    predicate HasStaging() { usersLoad.Some? && cardsLoad.Some? }

    function Live(): Tables
      requires HasLive()
    {
      Tables(users.value, cards.value)
    }

    function Staging(): Tables
      requires HasStaging()
    {
      Tables(usersLoad.value, cardsLoad.value)
    }
  }

  predicate AllLive(commits: seq<Content>) {
    forall i | 0 <= i < |commits| :: commits[i].HasLive()
  }

  /** The live tables of every commit. */
  function LivesOf(commits: seq<Content>): (r: seq<Tables>)
    requires AllLive(commits)
    ensures |r| == |commits| && forall i | 0 <= i < |r| :: r[i] == commits[i].Live()
  {
    seq(|commits|, i requires 0 <= i < |commits| => commits[i].Live())
  }

  lemma Grows(commits: seq<Content>, c: Content)
    requires AllLive(commits) && c.HasLive()
    ensures AllLive(commits + [c]) && LivesOf(commits + [c]) == LivesOf(commits) + [c.Live()]
  {
  }

  lemma FoldOne(rows: seq<Row>, row: Row)
    ensures Fold(rows + [row]) == Fold(rows).Put(row)
  {
    assert (rows + [row])[..|rows|] == rows;
  }

  class UsersDb {
    var commits: seq<Content>   // committed contents, oldest first
    var working: Content        // what this connection sees
    var inTxn: bool
    var loading: bool
    var loadRows: int
    var loadTotal: int

    ghost var accepted: seq<Row>        // rows taken since the load began

    /** No batch transaction grows past its bound. */
    ghost predicate Valid()
      reads this
    {
      Consistent() && (loading ==> 0 <= loadRows < LOAD_COMMIT_EVERY)
    }

    ghost predicate Consistent()
      reads this
    {
      && commits != [] && AllLive(commits)
      && working.HasLive()
      && (!inTxn ==> working == commits[|commits| - 1])
      && (inTxn <==> loading)
      && (loading ==> working.HasStaging() && working.Staging() == Fold(accepted))
    }

    /** What card lookups see. */
    ghost function Roster(): Tables
      requires Consistent()
      reads this
    {
      working.Live()
    }

    ghost function State(): Service
      requires Consistent()
      reads this
    {
      Service(working.Live(), LivesOf(commits), if loading then Some(accepted) else None,
              if loading then loadRows else 0)
    }

    constructor (initial: Tables)
      ensures Valid() && State() == Service(initial, [initial], None, 0)
    {
      var c := Content(Some(initial.users), Some(initial.cards), None, None);
      commits, working := [c], c;
      inTxn, loading, loadRows, loadTotal := false, false, 0, 0;
      accepted := [];
    }

    // ---- SQL ----

    /** Outside a transaction every statement commits by itself. */
    method Exec(c: Content)
      modifies this`working, this`commits
      ensures working == c
      ensures commits == if inTxn then old(commits) else old(commits) + [c]
    {
      working := c;
      if !inTxn { commits := commits + [c]; }
    }

    method TxnBegin()
      modifies this`inTxn, this`loadRows
      ensures inTxn && loadRows == if old(inTxn) then old(loadRows) else 0
    {
      if inTxn { return; }
      inTxn := true;
      loadRows := 0;
    }

    method TxnCommit()
      modifies this`inTxn, this`commits
      ensures !inTxn && commits == if old(inTxn) then old(commits) + [working] else old(commits)
    {
      if !inTxn { return; }
      inTxn := false;
      commits := commits + [working];
    }

    method Rollback()
      requires commits != []
      modifies this`inTxn, this`working
      ensures !inTxn && working == commits[|commits| - 1]
    {
      inTxn := false;
      working := commits[|commits| - 1];
    }

    // ---- Reading ----

    method LookupByCard(cardId: Id) returns (r: Option<User>)
      requires Valid()
      ensures r == Roster().LookupByCard(cardId)
      ensures forall u :: r == Some(u) <==>
        var t := Roster();
        cardId in t.cards && t.cards[cardId].userId in t.users && t.users[t.cards[cardId].userId] == u
    {
      var cards, users := working.cards.value, working.users.value;
      if cardId !in cards { return None; }
      var owner := cards[cardId].userId;
      if owner !in users { return None; }
      r := Some(users[owner]);
    }

    // ---- Single-user changes, at once ----

    method Put(p: Row)
      requires Valid()
      modifies this`working, this`commits
      ensures Valid() && State() == old(State()).After(PutOne(p))
    {
      var live := working.Live().Put(p);
      Grows(commits, working.(users := Some(live.users), cards := Some(live.cards)));
      Exec(working.(users := Some(live.users), cards := Some(live.cards)));
    }

    /** The cards of a user go first: a card without an owner would still let somebody in. */
    method Delete(userId: Id)
      requires Valid()
      modifies this`working, this`commits
      ensures Valid() && State() == old(State()).After(Remove(userId))
    {
      var t := Without(working.Live(), userId);
      hide Without, Fold;
      Grows(commits, working.(cards := Some(t.cards)));
      Grows(commits + [working.(cards := Some(t.cards))], working.(cards := Some(t.cards), users := Some(t.users)));
      Exec(working.(cards := Some(t.cards)));
      Exec(working.(users := Some(t.users)));
    }

    // ---- Full download ----

    method DropStaging()
      modifies this`working, this`commits
      ensures working == old(working).(usersLoad := None, cardsLoad := None)
      ensures commits == if inTxn then old(commits)
                         else old(commits) + [old(working).(usersLoad := None), working]
    {
      Exec(working.(usersLoad := None));
      Exec(working.(cardsLoad := None));
    }

    method LoadBegin()
      requires Valid()
      modifies this
      ensures Valid() && loading && accepted == []
      ensures State() == old(State()).After(Begin)
    {
      if loading { LoadAbort(); }
      Drop();
      Open();
    }

    method Open()
      requires Valid() && !loading && accepted == []
      modifies this
      ensures Valid() && loading && loadRows == 0 && accepted == []
      ensures Roster() == old(Roster())
      ensures LivesOf(commits) == LivesOf(old(commits)) + [Roster(), Roster()]
    {
      Grows(commits, working.(usersLoad := Some(map[])));
      Grows(commits + [working.(usersLoad := Some(map[]))],
            working.(usersLoad := Some(map[]), cardsLoad := Some(map[])));
      Exec(working.(usersLoad := Some(map[])));
      Exec(working.(cardsLoad := Some(map[])));
      loading := true;
      loadTotal := 0;
      TxnBegin();
    }

    method RotateTxnIfNeeded()
      requires Consistent() && loading && 0 <= loadRows <= LOAD_COMMIT_EVERY
      modifies this`inTxn, this`commits, this`loadRows
      ensures Valid() && inTxn
      ensures if old(loadRows) < LOAD_COMMIT_EVERY then commits == old(commits) && loadRows == old(loadRows)
              else commits == old(commits) + [working] && loadRows == 0
    {
      if loadRows < LOAD_COMMIT_EVERY { return; }
      TxnCommit();
      TxnBegin();
    }

    method LoadPut(u: User) returns (ok: bool)
      requires Valid()
      modifies this
      ensures Valid() && State() == old(State()).After(Take(UserRow(u)))
      ensures ok <==> old(loading)
      ensures loading == old(loading)
      ensures accepted == if ok then old(accepted) + [UserRow(u)] else old(accepted)
    {
      if !loading { return false; }
      Stage(working.(usersLoad := Some(working.usersLoad.value[u.userId := u])), UserRow(u));
      loadTotal := loadTotal + 1;
      ok := true;
    }

    method LoadPutCard(c: Card) returns (ok: bool)
      requires Valid()
      modifies this
      ensures Valid() && State() == old(State()).After(Take(CardRow(c)))
      ensures ok <==> old(loading)
      ensures loading == old(loading)
      ensures accepted == if ok then old(accepted) + [CardRow(c)] else old(accepted)
    {
      if !loading { return false; }
      Stage(working.(cardsLoad := Some(working.cardsLoad.value[c.cardId := c])), CardRow(c));
      ok := true;
    }

    /** One more row in the staging tables. */
    method Stage(c: Content, row: Row)
      requires Valid() && loading
      requires c.HasLive() && c.HasStaging() && c.Live() == working.Live() && c.Staging() == Fold(accepted).Put(row)
      modifies this
      ensures Valid() && loading && accepted == old(accepted) + [row]
      ensures State() == old(State()).After(Take(row))
    {
      hide Fold;
      Exec(c);
      FoldOne(accepted, row);
      accepted := accepted + [row];
      loadRows := loadRows + 1;
      Grows(commits, c);
      RotateTxnIfNeeded();
    }

    method LoadAbort()
      requires Valid()
      modifies this
      ensures Valid() && !loading && !working.usersLoad.Some? && !working.cardsLoad.Some?
      ensures accepted == [] && State() == old(State()).After(Abort)
    {
      if inTxn { Rollback(); }
      Drop();
    }

    /** No load any more; the staging tables go. */
    method Drop()
      requires !inTxn && commits != [] && AllLive(commits) && working == commits[|commits| - 1]
      modifies this
      ensures Valid() && !loading && !working.usersLoad.Some? && !working.cardsLoad.Some? && accepted == []
      ensures working.Live() == old(working).Live()
      ensures LivesOf(commits) == LivesOf(old(commits)) + [working.Live(), working.Live()]
    {
      Grows(commits, working.(usersLoad := None));
      Grows(commits + [working.(usersLoad := None)], working.(usersLoad := None, cardsLoad := None));
      DropStaging();
      loading := false;
      loadTotal := 0;
      accepted := [];
    }

    /** One transaction: drop the live tables and rename the staging ones into their place. */
    method SwapTables()
      requires !inTxn
      modifies this`working, this`commits, this`inTxn, this`loadRows
      ensures !inTxn
      ensures working == Content(old(working).usersLoad, old(working).cardsLoad, None, None)
      ensures commits == old(commits) + [working]
    {
      TxnBegin();
      Exec(working.(users := None));
      Exec(working.(cards := None));
      Exec(working.(users := working.usersLoad, usersLoad := None));
      Exec(working.(cards := working.cardsLoad, cardsLoad := None));
      TxnCommit();
    }

    /** Closes the last batch, then swaps. */
    method LoadCommit() returns (ok: bool)
      requires Valid()
      modifies this
      ensures Valid() && !loading
      ensures ok <==> old(loading)
      ensures accepted == if ok then [] else old(accepted)
      ensures State() == old(State()).After(Commit)
    {
      if !loading { return false; }
      TxnCommit();
      SwapTables();
      loading := false;
      loadTotal := 0;
      accepted := [];
      ok := true;
    }

    /** Power fails and the daemon opens the store again. `kept` commits survived. */
    method PowerLossAndOpen(kept: nat)
      requires Valid() && 1 <= kept <= |commits|
      modifies this
      ensures Valid() && !loading && !working.usersLoad.Some? && !working.cardsLoad.Some?
      ensures accepted == [] && Roster() == old(commits)[kept - 1].Live()
      ensures State() == old(State()).After(PowerLoss(kept))
    {
      assert commits[kept - 1] in commits;
      commits := commits[..kept];
      Rollback();
      loadRows := 0;
      assert LivesOf(commits) == LivesOf(old(commits))[..kept];
      Drop();
    }
  }

  /** The store follows every run. */
  method Perform(db: UsersDb, steps: seq<Step>)
    requires db.Valid()
    modifies db
    ensures db.Valid() && db.State() == old(db.State()).AfterAll(steps)
  {
    for i := 0 to |steps|
      invariant db.Valid() && db.State() == old(db.State()).AfterAll(steps[..i])
    {
      assert steps[..i + 1][..i] == steps[..i];
      PerformOne(db, steps[i]);
    }
    assert steps[..|steps|] == steps;
  }

  method PerformOne(db: UsersDb, step: Step)
    requires db.Valid()
    modifies db
    ensures db.Valid() && db.State() == old(db.State()).After(step)
  {
    var ok: bool;
    match step {
      case Begin => db.LoadBegin();
      case Take(UserRow(u)) => ok := db.LoadPut(u);
      case Take(CardRow(c)) => ok := db.LoadPutCard(c);
      case Abort => db.LoadAbort();
      case Commit => ok := db.LoadCommit();
      case PutOne(row) => db.Put(row);
      case Remove(userId) => db.Delete(userId);
      case PowerLoss(kept) => if 1 <= kept <= |db.commits| { db.PowerLossAndOpen(kept); }
    }
  }
}
