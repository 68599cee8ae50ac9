/** The alarm relay rule (acud/main.c): an output stored as Alarm is on exactly while the alarm input is
    active, or the fire input is and the output's option says that fire counts. It is worked out again
    whenever an input changes and whenever an output setting is stored. */
module AlarmOutputs {
  import opened Bytes
  import opened DeviceSettings
  import opened Options

  const OFF_ACTIVE_TYPE: nat := 6
  const OFF_ACTIVE_OPTION: nat := 10
  const ACTIVE_TYPE_ALARM := 2
  const OPTION_BY_FIRE := 0x80
  const OUTPUT_LEN: nat := 14

  /** The settings, the two inputs as last seen, and the outputs that are on. */
  datatype Panel = Panel(rows: Rows, alarm: bool, fire: bool, lit: set<Place>)

  predicate OutputPlace(p: Place, moduleCount: nat) {
    1 <= p.module_ <= moduleCount && 8 <= p.slot <= 11
  }

  function Setting(rows: Rows, p: Place): Found {
    Lookup(rows, Key(OBJ_OUTPUT, p), OUTPUT_LEN)
  }

  predicate IsAlarm(rows: Rows, p: Place) {
    match Setting(rows, p)
    case Data(out) => |out| == OUTPUT_LEN && out[OFF_ACTIVE_TYPE] == ACTIVE_TYPE_ALARM
    case _ => false
  }

  predicate ByFire(rows: Rows, p: Place) {
    match Setting(rows, p)
    case Data(out) => |out| == OUTPUT_LEN && HasBit(out[OFF_ACTIVE_OPTION], OPTION_BY_FIRE)
    case _ => false
  }

  /** An output is Alarm when a whole block is stored for it that says so, and not otherwise; whether fire counts
      is in the same block. */
  lemma AlarmMeans(rows: Rows, p: Place)
    ensures IsAlarm(rows, p) <==> Key(0x2D, p) in rows && |rows[Key(0x2D, p)]| == 14 && rows[Key(0x2D, p)][6] == 2
    ensures IsAlarm(rows, p) ==> (ByFire(rows, p) <==> HasBit(rows[Key(0x2D, p)][10], 0x80))
  {
    hide HasBit;
  }

  /** What an Alarm output should be. */
  predicate ShouldBeOn(p: Panel, place: Place) {
    p.alarm || (p.fire && ByFire(p.rows, place))
  }

  /** Every Alarm output, wherever one can be stored, is as the rule says. */
  ghost predicate RuleHolds(p: Panel, moduleCount: nat) {
    forall place | OutputPlace(place, moduleCount) && IsAlarm(p.rows, place) ::
      place in p.lit <==> ShouldBeOn(p, place)
  }

  /** q is p with the rule applied: Alarm outputs as they should be, every other output as it was. */
  ghost predicate Recomputed(p: Panel, q: Panel, moduleCount: nat) {
    && q.rows == p.rows && q.alarm == p.alarm && q.fire == p.fire
    && forall place ::
      place in q.lit <==> if OutputPlace(place, moduleCount) && IsAlarm(p.rows, place) then ShouldBeOn(p, place)
                          else place in p.lit
  }

  function Apply(p: Panel, moduleCount: nat): (q: Panel)
    ensures Recomputed(p, q, moduleCount)
  {
    var alarms :=
      set m: int, s: int | 1 <= m <= moduleCount && 8 <= s <= 11 && IsAlarm(p.rows, Place(m, s)) :: Place(m, s);
    p.(lit := (p.lit - alarms) + set place | place in alarms && ShouldBeOn(p, place))
  }

  // ---- Runs ----

  datatype Action = InputsRead(alarm: bool, fire: bool) | Write(rq: Request)

  function AfterInputs(p: Panel, alarm: bool, fire: bool, moduleCount: nat): Panel {
    var q := if alarm != p.alarm then Apply(p.(alarm := alarm), moduleCount) else p;
    if fire != q.fire then Apply(q.(fire := fire), moduleCount) else q
  }

  function AfterRequest(p: Panel, rq: Request, moduleCount: nat): Panel {
    var q := p.(rows := AfterWrite(p.rows, rq, moduleCount));
    if WriteKey(rq, moduleCount).Some? && rq.obj == OBJ_OUTPUT then Apply(q, moduleCount) else q
  }

  function Next(p: Panel, a: Action, moduleCount: nat): Panel {
    match a
    case InputsRead(alarm, fire) => AfterInputs(p, alarm, fire, moduleCount)
    case Write(rq) => AfterRequest(p, rq, moduleCount)
  }

  function Run(p: Panel, actions: seq<Action>, moduleCount: nat): Panel
    decreases |actions|
  {
    if actions == [] then p else Run(Next(p, actions[0], moduleCount), actions[1..], moduleCount)
  }

  lemma InputsKeepRule(p: Panel, alarm: bool, fire: bool, moduleCount: nat)
    requires RuleHolds(p, moduleCount)
    ensures RuleHolds(AfterInputs(p, alarm, fire, moduleCount), moduleCount)
    ensures AfterInputs(p, alarm, fire, moduleCount).alarm == alarm
    ensures AfterInputs(p, alarm, fire, moduleCount).fire == fire
  {
    hide Apply;
  }

  lemma WriteKeepsRule(p: Panel, rq: Request, moduleCount: nat)
    requires RuleHolds(p, moduleCount)
    ensures RuleHolds(AfterRequest(p, rq, moduleCount), moduleCount)
  {
    hide Apply, WriteKey, HasBit;
  }

  /** Through any run of input changes and setting writes, accepted or refused. */
  lemma {:induction false} RuleAlways(p: Panel, actions: seq<Action>, moduleCount: nat)
    requires RuleHolds(p, moduleCount)
    ensures RuleHolds(Run(p, actions, moduleCount), moduleCount)
    decreases |actions|
  {
    hide RuleHolds, Next;
    if actions != [] {
      NextKeepsRule(p, actions[0], moduleCount);
      RuleAlways(Next(p, actions[0], moduleCount), actions[1..], moduleCount);
    }
  }

  lemma NextKeepsRule(p: Panel, a: Action, moduleCount: nat)
    requires RuleHolds(p, moduleCount)
    ensures RuleHolds(Next(p, a, moduleCount), moduleCount)
  {
    hide RuleHolds;
    match a
    case InputsRead(alarm, fire) => InputsKeepRule(p, alarm, fire, moduleCount);
    case Write(rq) => WriteKeepsRule(p, rq, moduleCount);
  }

  /** A start with all outputs off, whatever is stored. */
  lemma RuleFromStart(rows: Rows, actions: seq<Action>, moduleCount: nat)
    ensures RuleHolds(Run(Panel(rows, false, false, {}), actions, moduleCount), moduleCount)
  {
    RuleAlways(Panel(rows, false, false, {}), actions, moduleCount);
  }

  // ---- What a write does to its own output ----

  lemma OutputSpec()
    ensures SpecOf(OBJ_OUTPUT) == Some(Spec(OBJ_OUTPUT, OUTPUT_LEN, Output))
  {
    assert SpecFrom(OBJ_OUTPUT, 2) == SpecFrom(OBJ_OUTPUT, 3);
  }

  /** Every accepted output setting lands where the rule looks, and the rule reads what was written. */
  lemma WrittenOutputIsSeen(rows: Rows, rq: Request, moduleCount: nat)
    requires rq.obj == OBJ_OUTPUT && WriteKey(rq, moduleCount).Some?
    ensures var place := WriteKey(rq, moduleCount).value.place;
      var after := AfterWrite(rows, rq, moduleCount);
      && OutputPlace(place, moduleCount) && |rq.data| >= OUTPUT_LEN
      && (IsAlarm(after, place) <==> rq.data[6] == 2)
      && (ByFire(after, place) <==> HasBit(rq.data[10], 0x80))
  {
    OutputSpec();
    hide HasBit, SpecOf;
  }

  /** An output made Alarm while an input is active comes on at once, and otherwise goes off at once. */
  lemma NewAlarmOutputObeys(p: Panel, rq: Request, moduleCount: nat)
    requires rq.obj == OBJ_OUTPUT && WriteKey(rq, moduleCount).Some? && RuleHolds(p, moduleCount)
    requires |rq.data| >= OUTPUT_LEN && rq.data[OFF_ACTIVE_TYPE] == ACTIVE_TYPE_ALARM
    ensures WriteKey(rq, moduleCount).value.place in AfterRequest(p, rq, moduleCount).lit <==>
            p.alarm || (p.fire && HasBit(rq.data[OFF_ACTIVE_OPTION], OPTION_BY_FIRE))
  {
    WrittenOutputIsSeen(p.rows, rq, moduleCount);
    hide Apply, HasBit, WriteKey, IsAlarm, ByFire;
  }

  /** A request that is refused, or that writes another kind of setting, switches nothing. */
  lemma OtherWritesSwitchNothing(p: Panel, rq: Request, moduleCount: nat)
    requires rq.obj != 0x2D || WriteKey(rq, moduleCount) == None
    ensures AfterRequest(p, rq, moduleCount).lit == p.lit
  {
  }

  predicate WritesTo(a: Action, place: Place, moduleCount: nat) {
    a.Write? && WriteKey(a.rq, moduleCount) == Some(Key(OBJ_OUTPUT, place))
  }

  /** The rule never touches an output that is not Alarm: one whose type is changed while it is on stays on
      until it is written again, even after the inputs go quiet. */
  lemma {:induction false} OtherOutputsKeepTheirState(p: Panel, actions: seq<Action>, place: Place, moduleCount: nat)
    requires !IsAlarm(p.rows, place)
    requires forall i | 0 <= i < |actions| :: !WritesTo(actions[i], place, moduleCount)
    ensures place in Run(p, actions, moduleCount).lit <==> place in p.lit
    decreases |actions|
  {
    if actions != [] {
      NotWrittenNotTouched(p, actions[0], place, moduleCount);
      OtherOutputsKeepTheirState(Next(p, actions[0], moduleCount), actions[1..], place, moduleCount);
    }
  }

  lemma NotWrittenNotTouched(p: Panel, a: Action, place: Place, moduleCount: nat)
    requires !IsAlarm(p.rows, place) && !WritesTo(a, place, moduleCount)
    ensures !IsAlarm(Next(p, a, moduleCount).rows, place)
    ensures place in Next(p, a, moduleCount).lit <==> place in p.lit
  {
    hide Apply, HasBit, WriteKey, SpecOf;
  }

  /** So an output written to another type keeps the state it had at that write, on or off, through any run
      in which it is not written again: one that was sounding goes on after the inputs are quiet. */
  lemma RetypedOutputStays(p: Panel, rq: Request, actions: seq<Action>, moduleCount: nat)
    requires rq.obj == OBJ_OUTPUT && WriteKey(rq, moduleCount).Some?
    requires |rq.data| >= OUTPUT_LEN && rq.data[OFF_ACTIVE_TYPE] != ACTIVE_TYPE_ALARM
    requires forall i | 0 <= i < |actions| :: !WritesTo(actions[i], WriteKey(rq, moduleCount).value.place, moduleCount)
    ensures var place := WriteKey(rq, moduleCount).value.place;
      place in Run(AfterRequest(p, rq, moduleCount), actions, moduleCount).lit <==> place in p.lit
  {
    var place := WriteKey(rq, moduleCount).value.place;
    WrittenOutputIsSeen(p.rows, rq, moduleCount);
    OtherOutputsKeepTheirState(AfterRequest(p, rq, moduleCount), actions, place, moduleCount);
  }

  // ---- The runtime ----

  class Runtime {
    const db: SettingsDb
    const moduleCount: nat
    const category: byte
    const kind: byte
    var alarmActive: bool
    var fireActive: bool
    var lit: set<Place>

    ghost function State(): Panel
      reads this, db
    {
      Panel(db.rows, alarmActive, fireActive, lit)
    }

    constructor (settings: SettingsDb, modules: nat, deviceCategory: byte, deviceType: byte)
      ensures db == settings && moduleCount == modules && category == deviceCategory && kind == deviceType
      ensures State() == Panel(settings.rows, false, false, {})
    {
      db, moduleCount, category, kind := settings, modules, deviceCategory, deviceType;
      alarmActive, fireActive, lit := false, false, {};
    }

    method SetOutput(p: Place, on: bool)
      modifies this`lit
      ensures lit == if on then old(lit) + {p} else old(lit) - {p}
    {
      lit := if on then lit + {p} else lit - {p};
    }

    method ApplyAlarmOutputs()
      modifies this`lit
      ensures State() == Apply(old(State()), moduleCount)
    {
      ghost var before := State();
      for m := 1 to moduleCount + 1
        invariant forall p :: p in lit <==>
          if OutputPlace(p, m - 1) && IsAlarm(db.rows, p) then ShouldBeOn(before, p) else p in before.lit
      {
        for s := 8 to 12
          invariant forall p :: p in lit <==>
            if (OutputPlace(p, m - 1) || (p.module_ == m && 8 <= p.slot < s)) && IsAlarm(db.rows, p)
            then ShouldBeOn(before, p) else p in before.lit
        {
          ApplyTo(Place(m, s));
        }
      }
      assert lit == Apply(before, moduleCount).lit;
    }

    method ApplyTo(p: Place)
      modifies this`lit
      ensures lit == if !IsAlarm(db.rows, p) then old(lit)
                     else if ShouldBeOn(old(State()), p) then old(lit) + {p} else old(lit) - {p}
    {
      var found := db.Get(Key(OBJ_OUTPUT, p), OUTPUT_LEN);
      if !found.Data? { return; }
      var out := found.bytes;
      if out[OFF_ACTIVE_TYPE] != ACTIVE_TYPE_ALARM { return; }
      var byFire := HasBit(out[OFF_ACTIVE_OPTION], OPTION_BY_FIRE);
      SetOutput(p, alarmActive || (fireActive && byFire));
    }

    method OnSettingChanged(obj: byte)
      modifies this`lit
      ensures State() == if obj == OBJ_OUTPUT then Apply(old(State()), moduleCount) else old(State())
    {
      if obj == OBJ_OUTPUT { ApplyAlarmOutputs(); }
    }

    method CheckAlarmFire(alarm: bool, fire: bool)
      modifies this
      ensures State() == AfterInputs(old(State()), alarm, fire, moduleCount)
    {
      if alarm != alarmActive {
        alarmActive := alarm;
        ApplyAlarmOutputs();
      }
      if fire != fireActive {
        fireActive := fire;
        ApplyAlarmOutputs();
      }
    }

    method HandleSettingWrite(rq: Request) returns (reply: Reply)
      modifies this`lit, db
      ensures State() == AfterRequest(old(State()), rq, moduleCount)
      ensures reply == WriteReply(rq, moduleCount)
    {
      if rq.command != CMD_SND_DATA || rq.subCommand != SUBCMD_CHANGE { return NotHandled; }
      var spec := FindSpec(rq.obj);
      if spec.None? { return NotHandled; }
      if |rq.data| < spec.value.len { return Fail; }
      var place := SettingKey(spec.value, rq.dest, moduleCount);
      if place.None? { return Fail; }
      var stored := db.Put(Key(rq.obj, place.value), rq.data[..spec.value.len]);
      if !stored { return Fail; }
      OnSettingChanged(rq.obj);
      reply := Success;
    }

    method HandleSettingRead(rq: Request) returns (reply: Reply)
      ensures reply == ReadReply(db.rows, rq, moduleCount, category, kind)
    {
      if rq.command != CMD_REQ_DATA || rq.subCommand != SUBCMD_READ { return NotHandled; }
      var spec := FindSpec(rq.obj);
      if spec.None? { return NotHandled; }
      var place := SettingKey(spec.value, rq.dest, moduleCount);
      if place.None? { return Fail; }
      var found := db.Get(Key(rq.obj, place.value), spec.value.len);
      match found {
        case Data(bytes) => reply := Block(bytes);
        case _ => reply := if rq.obj == OBJ_DEVICE then Block(DefaultBasis(category, kind)) else Fail;
      }
    }
  }
}
