/** A rollback that its timer has started while the user confirms (deploy/acu-netcfg). The two are separate
    processes, and nothing orders their steps: stopping the timer does not stop a rollback that is running, so
    that step changes nothing here. A copy is one step. */
module RollbackRace {
  import opened Options

  datatype Party = Rollback | Confirm

  /** Before the pc-th step, or at an end, with what is reported. */
  datatype Progress = At(pc: nat) | Ended(ok: bool)

  /** The profile file that PENDING names, its backup, and both processes. */
  datatype Race = Race(profile: string, backup: Option<string>, pending: bool, rollback: Progress, confirm: Progress) {

    /** Look for the flag; read it; look for the backup; copy it; lower the flag; drop the backup. */
    function RollbackMoves(): Race {
      if rollback.Ended? then this
      else match rollback.pc
        case 0 => this.(rollback := if pending then At(1) else Ended(true))
        case 1 => this.(rollback := if pending then At(2) else Ended(false))
        case 2 => this.(rollback := if backup.Some? then At(3) else At(4))
        case 3 =>
          if backup.Some? then this.(profile := backup.value, rollback := At(4)) else this.(rollback := Ended(false))
        case 4 => this.(pending := false, rollback := At(5))
        case _ => this.(backup := None, rollback := Ended(true))
    }

    /** Look for the flag; lower it; drop the backup. */
    function ConfirmMoves(): Race {
      if confirm.Ended? then this
      else match confirm.pc
        case 0 => this.(confirm := if pending then At(1) else Ended(false))
        case 1 => this.(pending := false, confirm := At(2))
        case _ => this.(backup := None, confirm := Ended(true))
    }

    function Moves(p: Party): Race {
      if p == Rollback then RollbackMoves() else ConfirmMoves()
    }
  }

  /** A change that waits to be confirmed, when both processes start. */
  function Waiting(before: string, changed: string): Race {
    Race(changed, Some(before), true, At(0), At(0))
  }

  /** The two processes take their steps in the order of `moves`. */
  function Raced(start: Race, moves: seq<Party>): Race
    decreases |moves|
  {
    if moves == [] then start else Raced(start, moves[..|moves| - 1]).Moves(moves[|moves| - 1])
  }

  function Count(moves: seq<Party>, p: Party): nat
    decreases |moves|
  {
    if moves == [] then 0 else Count(moves[..|moves| - 1], p) + if moves[|moves| - 1] == p then 1 else 0
  }

  /** p has taken i moves at a time when q had not taken its j-th. */
  predicate Before(moves: seq<Party>, p: Party, i: nat, q: Party, j: nat)
    decreases |moves|
  {
    || (Count(moves, p) >= i && Count(moves, q) < j)
    || (moves != [] && Before(moves[..|moves| - 1], p, i, q, j))
  }

  /** The numbers of moves, and which came first: whether the rollback reads the flag before confirm lowers it,
      whether it copies before confirm drops the backup, whether confirm looks before the flag is lowered. */
  datatype Tally = Tally(rolls: nat, confirms: nat, readInTime: bool, copiedInTime: bool, lookedInTime: bool) {

    function After(p: Party): Tally {
      var r := if p == Rollback then rolls + 1 else rolls;
      var c := if p == Confirm then confirms + 1 else confirms;
      Tally(r, c, readInTime || (r >= 2 && c < 2), copiedInTime || (r >= 4 && c < 3), lookedInTime || (c >= 1 && r < 5))
    }

    predicate Undone() { readInTime && copiedInTime }

    predicate Valid() {
      && (readInTime ==> rolls >= 2) && (rolls >= 2 && !readInTime ==> confirms >= 2)
      && (copiedInTime ==> rolls >= 4) && (rolls >= 4 && !copiedInTime ==> confirms >= 3)
      && (lookedInTime ==> confirms >= 1) && (confirms >= 1 && !lookedInTime ==> rolls >= 5)
      && (confirms >= 1 && !lookedInTime ==> Undone())
    }

    predicate FlagLowered() { (lookedInTime && confirms >= 2) || (Undone() && rolls >= 5) }

    predicate BackupDropped() { (lookedInTime && confirms >= 3) || (Undone() && rolls >= 6) }

    function ConfirmAt(): Progress {
      if confirms == 0 then At(0)
      else if !lookedInTime then Ended(false)
      else if confirms <= 2 then At(confirms)
      else Ended(true)
    }

    /** A rollback can be cut off by a lowered flag or a dropped backup. */
    predicate RollbackAt(at: Progress) {
      if rolls == 0 then at == At(0)
      else if rolls == 1 then at == At(1) || (at.Ended? && lookedInTime && confirms >= 2)
      else if !readInTime then at.Ended? && lookedInTime
      else if rolls == 2 then at == At(2)
      else if rolls == 3 then at == At(3) || (at == At(4) && lookedInTime && confirms >= 3)
      else if copiedInTime then at == (if rolls <= 5 then At(rolls) else Ended(true))
      else (at.Ended? || at == At(5)) && lookedInTime && (rolls >= 6 ==> at.Ended?)
    }
  }

  function TallyOf(moves: seq<Party>): Tally {
    Tally(Count(moves, Rollback), Count(moves, Confirm), Before(moves, Rollback, 2, Confirm, 2),
          Before(moves, Rollback, 4, Confirm, 3), Before(moves, Confirm, 1, Rollback, 5))
  }

  lemma TallyMoves(moves: seq<Party>)
    requires moves != []
    ensures TallyOf(moves) == TallyOf(moves[..|moves| - 1]).After(moves[|moves| - 1])
  {
  }

  /** Where the tally says everything stands. */
  ghost predicate Stands(r: Race, before: string, changed: string, t: Tally) {
    && r.profile == (if t.Undone() then before else changed)
    && r.pending == !t.FlagLowered()
    && r.backup == (if t.BackupDropped() then None else Some(before))
    && r.confirm == t.ConfirmAt() && t.RollbackAt(r.rollback)
  }

  lemma MoveKeeps(r: Race, before: string, changed: string, t: Tally, p: Party)
    requires t.Valid() && Stands(r, before, changed, t)
    ensures t.After(p).Valid() && Stands(r.Moves(p), before, changed, t.After(p))
  {
  }

  lemma {:induction false} StandsAlways(before: string, changed: string, moves: seq<Party>)
    ensures TallyOf(moves).Valid() && Stands(Raced(Waiting(before, changed), moves), before, changed, TallyOf(moves))
    decreases |moves|
  {
    if moves != [] {
      var n := |moves| - 1;
      hide TallyOf, Tally.Valid, Stands;
      StandsAlways(before, changed, moves[..n]);
      TallyMoves(moves);
      MoveKeeps(Raced(Waiting(before, changed), moves[..n]), before, changed, TallyOf(moves[..n]), moves[n]);
    }
  }

  /** Every order of the steps. The change is undone if and only if the rollback reads the flag before confirm
      lowers it and copies before confirm drops the backup. */
  lemma UndoneWhen(before: string, changed: string, moves: seq<Party>)
    requires before != changed
    ensures Raced(Waiting(before, changed), moves).profile == before <==>
      Before(moves, Rollback, 2, Confirm, 2) && Before(moves, Rollback, 4, Confirm, 3)
    ensures Raced(Waiting(before, changed), moves).profile in {before, changed}
  {
    StandsAlways(before, changed, moves);
  }

  /** Once confirm is through it has reported success if and only if it looked before the rollback lowered the
      flag; and when both are through neither the flag nor the backup is left. */
  lemma RaceEnds(before: string, changed: string, moves: seq<Party>)
    requires Count(moves, Confirm) >= 3
    ensures var r := Raced(Waiting(before, changed), moves);
      && r.confirm == Ended(Before(moves, Confirm, 1, Rollback, 5))
      && (Count(moves, Rollback) >= 6 ==> r.rollback.Ended? && !r.pending && r.backup == None)
  {
    StandsAlways(before, changed, moves);
  }

  lemma NextMove(start: Race, moves: seq<Party>, n: nat)
    requires n < |moves|
    ensures Raced(start, moves[..n + 1]) == Raced(start, moves[..n]).Moves(moves[n])
  {
    assert moves[..n + 1][..n] == moves[..n];
  }

  /** An order of the steps in which confirm reports success and the change is undone. */
  lemma ConfirmedYetUndone(before: string, changed: string)
    ensures var moves := [Rollback, Rollback, Confirm, Confirm, Rollback, Rollback, Confirm];
      var r := Raced(Waiting(before, changed), moves);
      r.confirm == Ended(true) && r.profile == before
  {
    var start := Waiting(before, changed);
    var moves := [Rollback, Rollback, Confirm, Confirm, Rollback, Rollback, Confirm];
    NextMove(start, moves, 0);
    NextMove(start, moves, 1);
    NextMove(start, moves, 2);
    NextMove(start, moves, 3);
    NextMove(start, moves, 4);
    NextMove(start, moves, 5);
    NextMove(start, moves, 6);
    assert moves[..7] == moves;
  }
}
