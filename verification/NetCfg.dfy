/** Changing the network settings with a way back (deploy/acu-netcfg). `apply` saves the profile, raises a
    PENDING flag, arms a timer that rolls back, and only then changes the profile; `confirm` lowers the
    flag. A unit runs `rollback` at every boot before the network comes up.

    Every command is a list of steps. Power may fail before any step, a command may die at any step, and
    a copy or the writing of PENDING may be cut in the middle by a power failure. */
module NetCfg {
  import opened Options

  type Path = string

  /** What a profile file or its backup holds. */
  datatype Content = Whole(profile: string) | Torn

  /** The PENDING file: not there, created but still empty, or naming the profile file. */
  datatype Flag = Absent | Empty | Names(path: Path)

  datatype Command =
    | Apply(path: Path, profile: string)
    | ApplyRequest(path: Path, profile: string)
    | Confirm
    | Rollback

  datatype Activity = Idle | Running(cmd: Command, pc: nat)

  /** The disk, the rollback timer, and the command being run. */
  datatype Device = Device(
    files: map<Path, Content>, backup: Option<Content>, pending: Flag, timer: bool, activity: Activity) {

    function At(pc: nat): Device
      requires activity.Running?
    {
      this.(activity := Running(activity.cmd, pc))
    }

    function Over(): Device { this.(activity := Idle) }

    /** cmd_apply, from the check for PENDING on. */
    function ApplyStep(path: Path, profile: string, timerStops: bool): Device
      requires activity.Running?
    {
      match activity.pc
      case 0 => if pending != Absent || path !in files then Over() else At(1)
      case 1 => At(2).(backup := Some(Torn))
      case 2 => if path in files then At(3).(backup := Some(files[path])) else Over()
      case 3 => At(4).(pending := Empty)
      case 4 => At(5).(pending := Names(path))
      case 5 => At(6).(timer := timer && !timerStops)
      case 6 => if timer then Over() else At(7).(timer := true)
      case _ => Over().(files := files[path := Whole(profile)])
    }

    function ApplyRequestStep(path: Path, profile: string): Device
      requires activity.Running?
    {
      match activity.pc
      case 0 => if pending != Absent || path !in files then Over() else At(1)
      case _ => Over().(files := files[path := Whole(profile)])
    }

    function ConfirmStep(timerStops: bool): Device
      requires activity.Running?
    {
      match activity.pc
      case 0 => if pending == Absent then Over() else At(1)
      case 1 => At(2).(timer := timer && !timerStops)
      case 2 => At(3).(pending := Absent)
      case _ => Over().(backup := None)
    }

    function RollbackStep(timerStops: bool): Device
      requires activity.Running?
    {
      match activity.pc
      case 0 => if pending == Absent then Over() else At(1)
      case 1 =>
        if backup == None then At(3)
        else if pending.Names? then At(2).(files := files[pending.path := Torn])
        else Over()
      case 2 => if backup.Some? && pending.Names? then At(3).(files := files[pending.path := backup.value]) else Over()
      case 3 => At(4).(timer := timer && !timerStops)
      case 4 => At(5).(pending := Absent)
      case _ => Over().(backup := None)
    }

    function Stepped(timerStops: bool): Device {
      if activity.Idle? then this
      else match activity.cmd
        case Apply(path, profile) => ApplyStep(path, profile, timerStops)
        case ApplyRequest(path, profile) => ApplyRequestStep(path, profile)
        case Confirm => ConfirmStep(timerStops)
        case Rollback => RollbackStep(timerStops)
    }
  }

  /** `timerStops` says whether `systemctl stop` of the timer, whose failure is ignored, took effect. */
  datatype Action = Start(cmd: Command) | Step(timerStops: bool) | Die | PowerLoss | TimerFires

  /** `committed` is what the profile files are meant to hold: it changes when a confirm lowers the flag
      and when a discovery request is applied. `excused` says that a confirm or a rollback has died since
      the last change of a profile. */
  datatype World = World(device: Device, committed: map<Path, Content>, excused: bool)

  function Commits(d: Device, committed: map<Path, Content>): map<Path, Content> {
    if d.activity.Idle? then committed
    else match d.activity.cmd
      case Confirm =>
        if d.activity.pc == 2 && d.pending.Names? && d.pending.path in d.files
        then committed[d.pending.path := d.files[d.pending.path]] else committed
      case ApplyRequest(path, profile) =>
        if d.activity.pc >= 1 then committed[path := Whole(profile)] else committed
      case _ => committed
  }

  predicate ChangesProfile(d: Device) {
    d.activity.Running? && d.activity.cmd.Apply? && d.activity.pc == 7
  }

  function Next(w: World, a: Action): World {
    var d := w.device;
    match a
    case Start(cmd) => if d.activity.Idle? then w.(device := d.(activity := Running(cmd, 0))) else w
    case Step(timerStops) => World(d.Stepped(timerStops), Commits(d, w.committed), w.excused && !ChangesProfile(d))
    case Die =>
      if d.activity.Idle? || d.activity == Running(Rollback, 2) then w
      else World(d.Over(), w.committed, w.excused || d.activity.cmd.Confirm? || d.activity.cmd.Rollback?)
    case PowerLoss => w.(device := d.(timer := false, activity := Running(Rollback, 0)))
    case TimerFires =>
      if d.activity.Idle? && d.timer then w.(device := d.(timer := false, activity := Running(Rollback, 0))) else w
  }

  function Fresh(files: map<Path, Content>): World {
    World(Device(files, None, Absent, false, Idle), files, false)
  }

  function Run(w: World, actions: seq<Action>): World
    decreases |actions|
  {
    if actions == [] then w else Run(Next(w, actions[0]), actions[1..])
  }

  // ---- What every run keeps ----

  /** While the flag names a profile, the backup holds what that file is meant to hold. */
  ghost predicate Safe(d: Device, committed: map<Path, Content>) {
    && d.files.Keys == committed.Keys
    && match d.pending
       case Absent => d.files == committed
       case Empty => d.files == committed && d.backup.Some?
       case Names(p) =>
         p in committed && d.backup == Some(committed[p])
         && (forall q | q in committed && q != p :: d.files[q] == committed[q])
  }

  /** What is known part way through a command. */
  ghost predicate OnTrack(d: Device, committed: map<Path, Content>) {
    d.activity.Running? ==>
      var pc := d.activity.pc;
      match d.activity.cmd
      case Apply(path, _) =>
        && pc <= 7
        && (pc >= 1 ==> path in d.files && d.files == committed)
        && (1 <= pc <= 3 ==> d.pending == Absent)
        && (3 <= pc <= 4 ==> path in d.files && d.backup == Some(d.files[path]))
        && (pc == 4 ==> d.pending == Empty)
        && (pc >= 5 ==> d.pending == Names(path))
        && (pc == 7 ==> d.timer)
      case ApplyRequest(path, _) => pc <= 1 && (pc == 1 ==> d.pending == Absent && path in d.files)
      case Confirm => pc <= 3 && (pc == 3 ==> d.pending == Absent)
      case Rollback =>
        && pc <= 5
        && (pc == 2 ==> d.pending.Names?)
        && (3 <= pc ==> d.files == committed)
        && (pc == 5 ==> d.pending == Absent)
  }

  predicate Undoing(d: Device) {
    d.activity.Running? && (d.activity.cmd.Confirm? || d.activity.cmd.Rollback?)
  }

  /** An unconfirmed change has the timer, or a confirm or rollback under way, to end it. */
  ghost predicate Watched(w: World) {
    w.device.files != w.committed ==> w.device.timer || Undoing(w.device) || w.excused
  }

  ghost predicate Inv(w: World) {
    Safe(w.device, w.committed) && OnTrack(w.device, w.committed) && Watched(w)
  }

  /** Up to here the files are untouched: the check, ... */
  lemma ApplyChecks(w: World, timerStops: bool)
    requires Inv(w) && w.device.activity.Running? && w.device.activity.cmd.Apply? && w.device.activity.pc == 0
    ensures Inv(Next(w, Step(timerStops)))
  {
    var v := Next(w, Step(timerStops));
    assert v.device.files == w.device.files && v.committed == w.committed;
  }

  /** ... the backup and the flag, ... */
  lemma ApplyPrepares(w: World, timerStops: bool)
    requires Inv(w) && w.device.activity.Running? && w.device.activity.cmd.Apply? && 1 <= w.device.activity.pc <= 4
    ensures Inv(Next(w, Step(timerStops)))
  {
    var v := Next(w, Step(timerStops));
    assert w.device.files == w.committed;
    assert v.device.files == w.device.files && v.committed == w.committed;
  }

  /** ... and the timer. */
  lemma ApplyArms(w: World, timerStops: bool)
    requires Inv(w) && w.device.activity.Running? && w.device.activity.cmd.Apply? && 5 <= w.device.activity.pc <= 6
    ensures Inv(Next(w, Step(timerStops)))
  {
    var v := Next(w, Step(timerStops));
    assert v.device.files == w.device.files == w.committed && v.committed == w.committed;
  }

  lemma ApplyChanges(w: World, timerStops: bool)
    requires Inv(w) && w.device.activity.Running? && w.device.activity.cmd.Apply? && w.device.activity.pc >= 7
    ensures Inv(Next(w, Step(timerStops)))
  {
  }

  lemma RequestKeeps(w: World, timerStops: bool)
    requires Inv(w) && w.device.activity.Running? && w.device.activity.cmd.ApplyRequest?
    ensures Inv(Next(w, Step(timerStops)))
  {
  }

  lemma ConfirmCommits(w: World, timerStops: bool)
    requires Inv(w) && w.device.activity == Running(Confirm, 2)
    ensures Inv(Next(w, Step(timerStops)))
  {
    var v := Next(w, Step(timerStops));
    assert v.device.files == w.device.files == v.committed;
  }

  lemma ConfirmKeeps(w: World, timerStops: bool)
    requires Inv(w) && w.device.activity.Running? && w.device.activity.cmd.Confirm? && w.device.activity.pc != 2
    ensures Inv(Next(w, Step(timerStops)))
  {
    var v := Next(w, Step(timerStops));
    assert v.device.files == w.device.files && v.committed == w.committed;
  }

  lemma RollbackTears(w: World, timerStops: bool)
    requires Inv(w) && w.device.activity == Running(Rollback, 1)
    ensures Inv(Next(w, Step(timerStops)))
  {
    var v := Next(w, Step(timerStops));
    assert v.committed == w.committed;
    if v.device.activity == Running(Rollback, 3) { assert v.device.files == w.committed; }
  }

  lemma RollbackCopies(w: World, timerStops: bool)
    requires Inv(w) && w.device.activity == Running(Rollback, 2)
    ensures Inv(Next(w, Step(timerStops)))
  {
    var v := Next(w, Step(timerStops));
    assert v.device.files == w.committed && v.committed == w.committed;
  }

  lemma RollbackTidies(w: World, timerStops: bool)
    requires Inv(w) && w.device.activity.Running? && w.device.activity.cmd.Rollback?
    requires !(1 <= w.device.activity.pc <= 2)
    ensures Inv(Next(w, Step(timerStops)))
  {
    var v := Next(w, Step(timerStops));
    assert v.device.files == w.device.files && v.committed == w.committed;
  }

  lemma StepKeeps(w: World, timerStops: bool)
    requires Inv(w)
    ensures Inv(Next(w, Step(timerStops)))
  {
    hide Inv;
    var activity := w.device.activity;
    if activity.Running? {
      match activity.cmd
      case Apply(_, _) =>
        if activity.pc == 0 { ApplyChecks(w, timerStops); }
        else if activity.pc <= 4 { ApplyPrepares(w, timerStops); }
        else if activity.pc <= 6 { ApplyArms(w, timerStops); }
        else { ApplyChanges(w, timerStops); }
      case ApplyRequest(_, _) => RequestKeeps(w, timerStops);
      case Confirm =>
        if activity.pc == 2 { ConfirmCommits(w, timerStops); } else { ConfirmKeeps(w, timerStops); }
      case Rollback =>
        if activity.pc == 1 { RollbackTears(w, timerStops); }
        else if activity.pc == 2 { RollbackCopies(w, timerStops); }
        else { RollbackTidies(w, timerStops); }
    }
  }

  lemma NextKeeps(w: World, a: Action)
    requires Inv(w)
    ensures Inv(Next(w, a))
  {
    if a.Step? { StepKeeps(w, a.timerStops); }
  }

  lemma {:induction false} InvAlways(w: World, actions: seq<Action>)
    requires Inv(w)
    ensures Inv(Run(w, actions))
    decreases |actions|
  {
    if actions != [] {
      NextKeeps(w, actions[0]);
      InvAlways(Next(w, actions[0]), actions[1..]);
    }
  }

  /** From the start, as long as no command dies, an unconfirmed change always has the timer, or a confirm or
      rollback under way, to end it. */
  lemma WatchedUnlessDied(files: map<Path, Content>, actions: seq<Action>)
    requires forall i | 0 <= i < |actions| :: actions[i] != Die
    ensures var w := Run(Fresh(files), actions);
      w.device.files != w.committed ==> w.device.timer || Undoing(w.device)
  {
    InvAlways(Fresh(files), actions);
    NeverExcused(Fresh(files), actions);
  }

  lemma {:induction false} NeverExcused(w: World, actions: seq<Action>)
    requires !w.excused && forall i | 0 <= i < |actions| :: actions[i] != Die
    ensures !Run(w, actions).excused
    decreases |actions|
  {
    if actions != [] { NeverExcused(Next(w, actions[0]), actions[1..]); }
  }

  // ---- Rolling back ----

  /** The command under way, run to its end without a disturbance. */
  function Finished(d: Device): Device
    decreases if d.activity.Running? && d.activity.pc <= 7 then 8 - d.activity.pc else 0
  {
    if d.activity.Idle? || d.activity.pc > 7 then d else Finished(d.Stepped(true))
  }

  lemma RollbackTidiesUp(d: Device)
    requires d.activity == Running(Rollback, 3)
    ensures Finished(d) == Device(d.files, None, Absent, false, Idle)
  {
    var d4 := d.Stepped(true);
    var d5 := d4.Stepped(true);
    assert Finished(d) == Finished(d4) == Finished(d5) == d5.Stepped(true);
  }

  lemma RollbackFinishes(d: Device)
    requires d.activity == Running(Rollback, 0)
    ensures Finished(d) ==
      if d.pending == Absent || (d.pending == Empty && d.backup.Some?) then d.Over()
      else if d.backup == None then Device(d.files, None, Absent, false, Idle)
      else Device(d.files[d.pending.path := d.backup.value], None, Absent, false, Idle)
  {
    var d1 := d.Stepped(true);
    assert Finished(d) == Finished(d1);
    if d1.activity.Running? {
      var d2 := d1.Stepped(true);
      assert Finished(d1) == Finished(d2);
      if d.backup == None {
        RollbackTidiesUp(d2);
      } else if d.pending.Names? {
        var d3 := d2.Stepped(true);
        assert d3.files == d.files[d.pending.path := d.backup.value];
        assert Finished(d2) == Finished(d3);
        RollbackTidiesUp(d3);
      }
    }
  }

  /** One undisturbed rollback, at boot or from the timer, puts every profile file back to what it is meant
      to hold. The flag is down afterwards exactly when it had been fully written. */
  lemma RollbackRestores(d: Device, committed: map<Path, Content>)
    requires Safe(d, committed) && d.activity == Running(Rollback, 0)
    ensures var r := Finished(d);
      && r.activity.Idle? && r.files == committed
      && (r.pending == Absent <==> d.pending != Empty)
      && (d.pending.Names? ==> r.backup == None && !r.timer)
  {
    RollbackFinishes(d);
    if d.pending.Names? {
      assert d.files[d.pending.path := committed[d.pending.path]] == committed;
    }
  }

  /** Whatever was done before and wherever power failed, the next boot ends with the committed profiles. */
  lemma PowerLossAnywhere(files: map<Path, Content>, actions: seq<Action>)
    ensures var w := Run(Fresh(files), actions);
      && Finished(Next(w, PowerLoss).device).files == w.committed
      && (Finished(Next(w, PowerLoss).device).pending == Absent <==> w.device.pending != Empty)
  {
    InvAlways(Fresh(files), actions);
    var w := Run(Fresh(files), actions);
    NextKeeps(w, PowerLoss);
    RollbackRestores(Next(w, PowerLoss).device, w.committed);
  }

  // ---- Confirmed or not ----

  predicate Committing(cmd: Command) { cmd.Confirm? || cmd.ApplyRequest? }

  predicate NotCommitting(d: Device) {
    d.activity.Running? ==> !Committing(d.activity.cmd)
  }

  lemma StepDoesNotCommit(w: World, a: Action)
    requires NotCommitting(w.device) && (a.Start? ==> !Committing(a.cmd))
    ensures NotCommitting(Next(w, a).device) && Next(w, a).committed == w.committed
  {
  }

  lemma {:induction false} CommittedStays(w: World, actions: seq<Action>)
    requires NotCommitting(w.device)
    requires forall i | 0 <= i < |actions| && actions[i].Start? :: !Committing(actions[i].cmd)
    ensures Run(w, actions).committed == w.committed
    decreases |actions|
  {
    if actions != [] {
      hide Next, NotCommitting;
      StepDoesNotCommit(w, actions[0]);
      CommittedStays(Next(w, actions[0]), actions[1..]);
    }
  }

  /** From settled profiles, any number of applies without a confirm, with timers, rollbacks, deaths and
      power failures anywhere: the next boot, and the timer if it is armed, restore the profiles as they
      were. */
  lemma UnconfirmedIsUndone(w: World, actions: seq<Action>)
    requires Inv(w) && w.device.activity.Idle? && w.device.pending == Absent
    requires forall i | 0 <= i < |actions| && actions[i].Start? :: !Committing(actions[i].cmd)
    ensures Finished(Next(Run(w, actions), PowerLoss).device).files == w.device.files
    ensures var v := Run(w, actions);
      v.device.activity.Idle? && v.device.timer ==> Finished(Next(v, TimerFires).device).files == w.device.files
  {
    CommittedStays(w, actions);
    InvAlways(w, actions);
    var v := Run(w, actions);
    NextKeeps(v, PowerLoss);
    RollbackRestores(Next(v, PowerLoss).device, v.committed);
    if v.device.activity.Idle? && v.device.timer {
      NextKeeps(v, TimerFires);
      RollbackRestores(Next(v, TimerFires).device, v.committed);
    }
  }

  /** The timer does the same as the boot: after any run, when it goes off undisturbed, the committed
      profiles are back and nothing is left to undo. */
  lemma TimerUndoes(files: map<Path, Content>, actions: seq<Action>)
    requires var d := Run(Fresh(files), actions).device; d.activity.Idle? && d.timer
    ensures var w := Run(Fresh(files), actions);
      && Finished(Next(w, TimerFires).device).files == w.committed
      && (Finished(Next(w, TimerFires).device).pending == Absent <==> w.device.pending != Empty)
  {
    InvAlways(Fresh(files), actions);
    var w := Run(Fresh(files), actions);
    NextKeeps(w, TimerFires);
    RollbackRestores(Next(w, TimerFires).device, w.committed);
  }

  /** And there is such a timer: an apply that got through leaves it armed, with the profile changed. */
  lemma ApplyIsWatched(w: World, path: Path, profile: string)
    requires Inv(w) && w.device.activity == Running(Apply(path, profile), 7)
    ensures var v := Next(w, Step(true));
      && v.device.activity.Idle? && v.device.timer && !v.excused
      && v.device.files == w.committed[path := Whole(profile)] && v.committed == w.committed
      && Finished(Next(v, TimerFires).device).files == w.committed
  {
    var v := Next(w, Step(true));
    NextKeeps(w, Step(true));
    NextKeeps(v, TimerFires);
    RollbackRestores(Next(v, TimerFires).device, v.committed);
  }

  /** A confirm that gets through settles the profiles as they are now, so that the lemma above applies to
      them: nothing but a later confirm or request changes them for good. */
  lemma ConfirmSettles(w: World, stops: bool)
    requires Inv(w) && w.device.activity.Idle? && w.device.pending != Absent
    ensures var s := Step(stops);
      var v := Next(Next(Next(Next(Next(w, Start(Confirm)), s), s), s), s);
      && Inv(v) && v.device.activity.Idle? && v.device.pending == Absent
      && v.device.files == w.device.files == v.committed
      && Finished(Next(v, TimerFires).device).files == w.device.files
      && (stops ==> !v.device.timer && Next(v, TimerFires) == v)
  {
    var s := Step(stops);
    var w0 := Next(w, Start(Confirm));
    NextKeeps(w, Start(Confirm));
    NextKeeps(w0, s);
    NextKeeps(Next(w0, s), s);
    NextKeeps(Next(Next(w0, s), s), s);
    NextKeeps(Next(Next(Next(w0, s), s), s), s);
    var v := Next(Next(Next(Next(w0, s), s), s), s);
    if v.device.timer {
      NextKeeps(v, TimerFires);
      RollbackRestores(Next(v, TimerFires).device, v.committed);
    }
  }

  /** An attempt at another change: an apply or a request is started, steps or dies. */
  predicate Attempt(a: Action) {
    match a
    case Start(cmd) => cmd.Apply? || cmd.ApplyRequest?
    case Step(_) => true
    case Die => true
    case _ => false
  }

  predicate AtCheck(d: Device) {
    d.activity.Idle? || (d.activity.pc == 0 && (d.activity.cmd.Apply? || d.activity.cmd.ApplyRequest?))
  }

  /** While a change waits to be confirmed, any number of attempts at another one leave everything as it
      is: the profiles, the backup, the flag, the timer and what is committed. */
  lemma {:induction false} RefusedWhilePending(w: World, actions: seq<Action>)
    requires w.device.pending != Absent && AtCheck(w.device)
    requires forall i | 0 <= i < |actions| :: Attempt(actions[i])
    ensures var v := Run(w, actions);
      v.device.Over() == w.device.Over() && v.committed == w.committed && v.excused == w.excused
    decreases |actions|
  {
    if actions != [] {
      var v := Next(w, actions[0]);
      assert AtCheck(v.device) && v.device.Over() == w.device.Over() && v.committed == w.committed;
      RefusedWhilePending(v, actions[1..]);
    }
  }

  /** Why a command that died is an exception: a confirm that dies once it has stopped the timer leaves a change
      that nothing will undo before the next boot. */
  lemma DeadConfirmLeavesChange(w: World)
    requires Inv(w) && w.device.activity.Idle? && w.device.files != w.committed
    ensures var s := Step(true);
      var v := Next(Next(Next(Next(w, Start(Confirm)), s), s), Die);
      && v.device.activity.Idle? && !v.device.timer && v.committed == w.committed
      && v.device.files == w.device.files != v.committed
      && Finished(Next(v, PowerLoss).device).files == w.committed
  {
    var s := Step(true);
    var w1 := Next(w, Start(Confirm));
    var w3 := Next(Next(w1, s), s);
    NextKeeps(w, Start(Confirm));
    NextKeeps(w1, s);
    NextKeeps(Next(w1, s), s);
    NextKeeps(w3, Die);
    NextKeeps(Next(w3, Die), PowerLoss);
    RollbackRestores(Next(Next(w3, Die), PowerLoss).device, w.committed);
  }

  // ---- A flag cut short ----

  /** A power failure while PENDING is written leaves it empty, and the boot does not clear it. */
  lemma FlagCutShort(files: map<Path, Content>, path: Path, profile: string)
    requires path in files
    ensures var s := Step(true);
      var w := Next(Next(Next(Next(Next(Fresh(files), Start(Apply(path, profile))), s), s), s), s);
      Finished(Next(w, PowerLoss).device).pending == Empty
  {
    var d := Device(files, Some(files[path]), Empty, false, Running(Rollback, 0));
    assert Finished(d) == Finished(d.Stepped(true));
  }

  predicate Waiting(d: Device) {
    d.activity.Idle? || d.activity.pc == 0 || d.activity == Running(Rollback, 1)
  }

  /** An empty flag stays, and with it every apply and request is refused, until a confirm. */
  lemma {:induction false} EmptyFlagBlocks(w: World, actions: seq<Action>)
    requires Inv(w) && w.device.pending == Empty && Waiting(w.device)
    requires w.device.activity.Running? ==> w.device.activity.cmd != Confirm
    requires forall i | 0 <= i < |actions| :: actions[i] != Start(Confirm)
    ensures Run(w, actions).device.pending == Empty && Run(w, actions).device.files == w.device.files
    decreases |actions|
  {
    if actions != [] {
      var v := Next(w, actions[0]);
      NextKeeps(w, actions[0]);
      assert v.device.pending == Empty && Waiting(v.device) && v.device.files == w.device.files;
      EmptyFlagBlocks(v, actions[1..]);
    }
  }

  // ---- The commands, undisturbed ----

  lemma ApplyArmsAndChanges(d: Device, path: Path, profile: string)
    requires d.activity == Running(Apply(path, profile), 4)
    ensures Finished(d) == Device(d.files[path := Whole(profile)], d.backup, Names(path), true, Idle)
  {
    var d5 := d.Stepped(true);
    var d6 := d5.Stepped(true);
    var d7 := d6.Stepped(true);
    assert Finished(d) == Finished(d5) == Finished(d6) == Finished(d7) == d7.Stepped(true);
  }

  lemma ApplyFinishes(d: Device, path: Path, profile: string)
    requires d.activity == Running(Apply(path, profile), 0)
    ensures Finished(d) ==
      if d.pending != Absent || path !in d.files then d.Over()
      else Device(d.files[path := Whole(profile)], Some(d.files[path]), Names(path), true, Idle)
  {
    var d1 := d.Stepped(true);
    assert Finished(d) == Finished(d1);
    if d1.activity.Running? {
      var d2 := d1.Stepped(true);
      var d3 := d2.Stepped(true);
      var d4 := d3.Stepped(true);
      assert Finished(d1) == Finished(d2) == Finished(d3) == Finished(d4);
      ApplyArmsAndChanges(d4, path, profile);
    }
  }

  lemma RequestFinishes(d: Device, path: Path, profile: string)
    requires d.activity == Running(ApplyRequest(path, profile), 0)
    ensures Finished(d) ==
      if d.pending != Absent || path !in d.files then d.Over() else d.Over().(files := d.files[path := Whole(profile)])
  {
    assert Finished(d) == Finished(d.Stepped(true));
    assert Finished(d.Stepped(true)) == Finished(d.Stepped(true).Stepped(true));
  }

  lemma ConfirmFinishes(d: Device)
    requires d.activity == Running(Confirm, 0)
    ensures Finished(d) == if d.pending == Absent then d.Over() else Device(d.files, None, Absent, false, Idle)
  {
    var d1 := d.Stepped(true);
    assert Finished(d) == Finished(d1);
    if d1.activity.Running? {
      var d2 := d1.Stepped(true);
      var d3 := d2.Stepped(true);
      assert Finished(d1) == Finished(d2) == Finished(d3) == d3.Stepped(true);
    }
  }

  /** Each command run undisturbed ends where its steps end. */
  class Helper {
    var files: map<Path, Content>
    var backup: Option<Content>
    var pending: Flag
    var timer: bool

    ghost function State(activity: Activity): Device
      reads this
    {
      Device(files, backup, pending, timer, activity)
    }

    constructor (profiles: map<Path, Content>)
      ensures State(Idle) == Fresh(profiles).device
    {
      files, backup, pending, timer := profiles, None, Absent, false;
    }

    method CmdApply(path: Path, profile: string) returns (ok: bool)
      modifies this
      ensures State(Idle) == Finished(old(State(Running(Apply(path, profile), 0))))
      ensures ok == (old(pending) == Absent && path in old(files))
    {
      ApplyFinishes(State(Running(Apply(path, profile), 0)), path, profile);
      if pending != Absent || path !in files { return false; }
      backup := Some(files[path]);
      pending := Names(path);
      timer := false;
      timer := true;
      files := files[path := Whole(profile)];
      ok := true;
    }

    method CmdApplyRequest(path: Path, profile: string) returns (ok: bool)
      modifies this
      ensures State(Idle) == Finished(old(State(Running(ApplyRequest(path, profile), 0))))
      ensures ok == (old(pending) == Absent && path in old(files))
    {
      RequestFinishes(State(Running(ApplyRequest(path, profile), 0)), path, profile);
      if pending != Absent || path !in files { return false; }
      files := files[path := Whole(profile)];
      ok := true;
    }

    method CmdConfirm() returns (ok: bool)
      modifies this
      ensures State(Idle) == Finished(old(State(Running(Confirm, 0))))
      ensures ok == (old(pending) != Absent)
    {
      ConfirmFinishes(State(Running(Confirm, 0)));
      if pending == Absent { return false; }
      timer := false;
      pending := Absent;
      backup := None;
      ok := true;
    }

    method CmdRollback() returns (ok: bool)
      modifies this
      ensures State(Idle) == Finished(old(State(Running(Rollback, 0))))
      ensures ok == (old(pending) != Empty || old(backup) == None)
    {
      RollbackFinishes(State(Running(Rollback, 0)));
      if pending == Absent { return true; }
      if backup.Some? {
        if pending == Empty { return false; }
        files := files[pending.path := backup.value];
      }
      timer := false;
      pending := Absent;
      backup := None;
      ok := true;
    }
  }
}
