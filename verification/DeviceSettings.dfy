/** Device settings (acud/net.c, handle_setting_read and handle_setting_write; acud/devset.c): blocks kept
    as they came, under the place of the controller that they are for. */
module DeviceSettings {
  import opened Bytes
  import opened IdtiPacket
  import opened Options

  const CMD_SND_DATA := 0x05
  const CMD_REQ_DATA := 0x06
  const SUBCMD_READ := 0x02
  const SUBCMD_CHANGE := 0x05

  const OBJ_DEVICE := 0x29
  const OBJ_OUTPUT := 0x2D
  const DEST_MODULE_IDX: nat := 3
  const DEST_BITMAP_IDX: nat := 4
  const MODULE_COUNT_MAX: nat := 14

  datatype SettingUnit = Controller | Reader | Input | Output | ControllerOrReader

  datatype Spec = Spec(obj: byte, len: nat, unit: SettingUnit)

  const SPECS: seq<Spec> := [
    Spec(OBJ_DEVICE, 13, Controller), Spec(0x2B, 24, Controller), Spec(0x2C, 21, Input), Spec(OBJ_OUTPUT, 14, Output),
    Spec(0x2F, 32, Reader), Spec(0x51, 21, Controller), Spec(0x52, 16, Controller), Spec(0x53, 7, ControllerOrReader),
    Spec(0x54, 7, Output)]

  /** The first entry for the object, from the i-th on. */
  function SpecFrom(obj: byte, i: nat): (r: Option<Spec>)
    requires i <= |SPECS|
    ensures r.Some? ==> r.value in SPECS && r.value.obj == obj
    ensures r.None? ==> forall j | i <= j < |SPECS| :: SPECS[j].obj != obj
    decreases |SPECS| - i
  {
    if i == |SPECS| then None else if SPECS[i].obj == obj then Some(SPECS[i]) else SpecFrom(obj, i + 1)
  }

  function SpecOf(obj: byte): Option<Spec> { SpecFrom(obj, 0) }

  method FindSpec(obj: byte) returns (r: Option<Spec>)
    ensures r == SpecOf(obj)
  {
    for i := 0 to |SPECS|
      invariant SpecFrom(obj, i) == SpecOf(obj)
    {
      if SPECS[i].obj == obj { return Some(SPECS[i]); }
    }
    r := None;
  }

  // ---- Where a setting belongs ----

  /** The lowest bit that is on. */
  function LowestBit(bitmap: nat): nat
    requires bitmap > 0
  {
    if bitmap % 2 == 1 then 0 else 1 + LowestBit(bitmap / 2)
  }

  /** The bitmap is an odd number of 2^k. */
  ghost predicate OddTimes(bitmap: nat, k: nat) {
    exists half: nat :: bitmap == (2 * half + 1) * Pow2(k)
  }

  lemma Doubled(half: nat, p: nat)
    ensures (2 * half + 1) * (2 * p) == 2 * ((2 * half + 1) * p)
  {
  }

  /** It is the only k of which the bitmap is an odd number of 2^k. */
  lemma {:induction false} LowestBitMeaning(bitmap: nat, k: nat)
    requires bitmap > 0
    ensures OddTimes(bitmap, k) <==> LowestBit(bitmap) == k
  {
    if bitmap % 2 == 1 {
      assert bitmap == (2 * (bitmap / 2) + 1) * Pow2(0);
      if k > 0 { EvenTimes(bitmap, k); }
    } else if k == 0 {
      OddOnly(bitmap);
    } else {
      LowestBitMeaning(bitmap / 2, k - 1);
      HalvesTimes(bitmap / 2, k - 1);
    }
  }

  lemma EvenTimes(bitmap: nat, k: nat)
    requires k > 0
    ensures OddTimes(bitmap, k) ==> bitmap % 2 == 0
  {
    if half: nat :| bitmap == (2 * half + 1) * Pow2(k) {
      Doubled(half, Pow2(k - 1));
    }
  }

  lemma OddOnly(bitmap: nat)
    ensures OddTimes(bitmap, 0) ==> bitmap % 2 == 1
  {
  }

  lemma HalvesTimes(half: nat, k: nat)
    ensures OddTimes(2 * half, k + 1) <==> OddTimes(half, k)
  {
    if h: nat :| 2 * half == (2 * h + 1) * Pow2(k + 1) {
      Doubled(h, Pow2(k));
      assert half == (2 * h + 1) * Pow2(k);
    }
    if h: nat :| half == (2 * h + 1) * Pow2(k) {
      Doubled(h, Pow2(k));
      assert 2 * half == (2 * h + 1) * Pow2(k + 1);
    }
  }

  datatype Place = Place(module_: int, slot: nat)

  function Bitmap(dest: Dest): u32 { FromBe32(dest[DEST_BITMAP_IDX..]) }

  /** The module and slot that a request is addressed to; several slots at once mean the lowest. */
  function Slot(dest: Dest): Option<Place> {
    if Bitmap(dest) == 0 then None else Some(Place(dest[DEST_MODULE_IDX], LowestBit(Bitmap(dest))))
  }

  method RequestSlot(dest: Dest) returns (r: Option<Place>)
    ensures r == Slot(dest)
  {
    var bitmap: nat := Bitmap(dest);
    if bitmap == 0 { return None; }
    var slot := 0;
    while bitmap % 2 == 0
      invariant bitmap > 0 && LowestBit(Bitmap(dest)) == slot + LowestBit(bitmap)
      decreases bitmap
    {
      bitmap := bitmap / 2;
      slot := slot + 1;
    }
    r := Some(Place(dest[DEST_MODULE_IDX], slot));
  }

  /** A module has 14 slots: two readers, inputs, four outputs, two more inputs. */
  predicate SlotFits(unit: SettingUnit, slot: nat) {
    match unit
    case Reader => slot <= 1
    case Input => 2 <= slot <= 7 || slot == 12 || slot == 13
    case _ => 8 <= slot <= 11
  }

  function EffectiveUnit(unit: SettingUnit, dest: Dest): SettingUnit {
    if unit != ControllerOrReader then unit
    else if dest[DEST_MODULE_IDX] == 0 && Bitmap(dest) == 0 then Controller else Reader
  }

  /** Where a request's setting is kept, or None when the object cannot be there. */
  function KeyFor(spec: Spec, dest: Dest, moduleCount: nat): Option<Place> {
    var unit := EffectiveUnit(spec.unit, dest);
    if unit == Controller then Some(Place(0, 0))
    else match Slot(dest)
      case None => None
      case Some(p) => if 1 <= p.module_ <= moduleCount && SlotFits(unit, p.slot) then Some(p) else None
  }

  method SettingKey(spec: Spec, dest: Dest, moduleCount: nat) returns (r: Option<Place>)
    ensures r == KeyFor(spec, dest, moduleCount)
  {
    var unit := spec.unit;
    if unit == ControllerOrReader {
      unit := if dest[DEST_MODULE_IDX] == 0 && Bitmap(dest) == 0 then Controller else Reader;
    }
    if unit == Controller { return Some(Place(0, 0)); }
    var place := RequestSlot(dest);
    if place.None? { return None; }
    if place.value.module_ < 1 || place.value.module_ > moduleCount { return None; }
    if !SlotFits(unit, place.value.slot) { return None; }
    r := place;
  }

  /** What a request is addressed to: byte 3 of the address is the module, bytes 4 to 7 are the bitmap of slots,
      the lowest of which counts. */
  lemma SlotMeaning(dest: Dest)
    ensures Slot(dest) == None <==> dest[4..] == [0, 0, 0, 0]
    ensures Slot(dest).Some? ==>
      Slot(dest).value.module_ == dest[3] && OddTimes(FromBe32(dest[4..]), Slot(dest).value.slot)
  {
    ZeroWord(dest[4..]);
    if Bitmap(dest) > 0 { LowestBitMeaning(Bitmap(dest), LowestBit(Bitmap(dest))); }
  }

  lemma ZeroWord(s: seq<byte>)
    requires |s| == 4
    ensures FromBe32(s) == 0 <==> s == [0, 0, 0, 0]
  {
  }

  lemma Address(m: byte, slot: nat) returns (dest: Dest)
    requires slot < 14
    ensures dest[DEST_MODULE_IDX] == m && Slot(dest) == Some(Place(m, slot))
  {
    PowersInRange(slot);
    dest := [0, 0, 0, m] + Be32(Pow2(slot));
    assert dest[DEST_BITMAP_IDX..] == Be32(Pow2(slot));
    Be32RoundTrip(Pow2(slot), dest[4..]);
    assert Bitmap(dest) == (2 * 0 + 1) * Pow2(slot);
    LowestBitMeaning(Bitmap(dest), slot);
  }

  lemma PowersInRange(slot: nat)
    requires slot < 14
    ensures 0 < Pow2(slot) < 0x1_0000_0000
  {
    assert Pow2(7) == 0x80;
    if slot <= 7 {
      PowerBelow(slot, 7);
    } else {
      Pow2Add(7, slot - 7);
      PowerBelow(slot - 7, 7);
      assert Pow2(slot) == 0x80 * Pow2(slot - 7);
    }
  }

  lemma {:induction false} PowerBelow(a: nat, b: nat)
    requires a <= b
    ensures 0 < Pow2(a) <= Pow2(b)
  {
    if a < b { PowerBelow(a, b - 1); }
  }

  // ---- Which settings there are ----

  /** The objects and the sizes of their blocks. */
  lemma SpecTable(obj: byte)
    ensures SpecOf(obj).Some? <==> obj in [0x29, 0x2B, 0x2C, 0x2D, 0x2F, 0x51, 0x52, 0x53, 0x54]
    ensures SpecOf(obj).Some? ==>
      SpecOf(obj).value.len == (match obj
                                case 0x29 => 13
                                case 0x2B => 24
                                case 0x2C => 21
                                case 0x2D => 14
                                case 0x2F => 32
                                case 0x51 => 21
                                case 0x52 => 16
                                case _ => 7)
    ensures SpecOf(obj).Some? ==>
      SpecOf(obj).value.unit == (match obj
                                 case 0x2C => Input
                                 case 0x2D => Output
                                 case 0x54 => Output
                                 case 0x2F => Reader
                                 case 0x53 => ControllerOrReader
                                 case _ => Controller)
  {
    Entry(obj, 0);
    Entry(obj, 1);
    Entry(obj, 2);
    Entry(obj, 3);
    Entry(obj, 4);
    Entry(obj, 5);
    Entry(obj, 6);
    Entry(obj, 7);
    Entry(obj, 8);
    assert SpecFrom(obj, 9) == None;
    hide SpecFrom;
  }

  lemma Entry(obj: byte, i: nat)
    requires i < |SPECS|
    ensures SpecFrom(obj, i) == if SPECS[i].obj == obj then Some(SPECS[i]) else SpecFrom(obj, i + 1)
  {
  }

  /** Which place a request names: settings of the controller need no address; a schedule of operating modes is
      the controller's when module and bitmap are zero; otherwise it is the slot of the address. */
  lemma AddressedPlace(spec: Spec, dest: Dest, moduleCount: nat)
    ensures spec.unit == Controller ==> KeyFor(spec, dest, moduleCount) == Some(Place(0, 0))
    ensures spec.unit != Controller ==>
      (KeyFor(spec, dest, moduleCount) == Some(Place(0, 0)) <==>
       spec.unit == ControllerOrReader && dest[3..] == [0, 0, 0, 0, 0])
    ensures spec.unit != Controller && KeyFor(spec, dest, moduleCount) !in {None, Some(Place(0, 0))} ==>
      KeyFor(spec, dest, moduleCount) == Slot(dest)
  {
    ZeroWord(dest[4..]);
    assert dest[3..] == [dest[3]] + dest[4..];
  }

  /** The kinds of the 14 slots of a module: readers, inputs, outputs. */
  const LAYOUT := "22333333444433"

  function KindOf(unit: SettingUnit): char {
    match unit
    case Controller => '0'
    case Input => '3'
    case Output => '4'
    case _ => '2'
  }

  lemma FitsLayout(unit: SettingUnit, slot: nat)
    requires unit != Controller && unit != ControllerOrReader
    ensures SlotFits(unit, slot) <==> slot < 14 && LAYOUT[slot] == KindOf(unit)
  {
    LayoutRuns(slot);
  }

  lemma LayoutRuns(slot: nat)
    ensures slot < 14 ==> LAYOUT[slot] == if slot <= 1 then '2' else if slot <= 7 || slot >= 12 then '3' else '4'
  {
  }

  /** The places where a setting can be kept: the controller itself for a setting of the controller, and the
      slots of its kind in the modules there are for any other; a schedule of operating modes has both. */
  lemma SettingPlaces(spec: Spec, moduleCount: nat, p: Place)
    requires moduleCount <= MODULE_COUNT_MAX
    ensures (exists dest: Dest :: KeyFor(spec, dest, moduleCount) == Some(p)) <==>
      || (p == Place(0, 0) && (spec.unit == Controller || spec.unit == ControllerOrReader))
      || (spec.unit != Controller && 1 <= p.module_ <= moduleCount
          && p.slot < 14 && LAYOUT[p.slot] == KindOf(spec.unit))
  {
    var unit := if spec.unit == ControllerOrReader then Reader else spec.unit;
    hide SlotFits, Bitmap;
    if unit != Controller { FitsLayout(unit, p.slot); }
    if p == Place(0, 0) && spec.unit != unit {
      var dest: Dest := [0, 0, 0, 0, 0, 0, 0, 0];
      ZeroWord(dest[4..]);
      NoBits(dest);
      assert KeyFor(spec, dest, moduleCount) == Some(p);
    } else if p == Place(0, 0) && unit == Controller {
      var dest: Dest := [0, 0, 0, 0, 0, 0, 0, 0];
      assert KeyFor(spec, dest, moduleCount) == Some(p);
    } else if spec.unit != Controller && 1 <= p.module_ <= moduleCount && p.slot < 14 {
      var dest := Address(p.module_, p.slot);
      assert EffectiveUnit(spec.unit, dest) == unit;
      assert SlotFits(unit, p.slot) ==> KeyFor(spec, dest, moduleCount) == Some(p);
    }
  }

  lemma NoBits(dest: Dest)
    requires dest[DEST_BITMAP_IDX..] == [0, 0, 0, 0]
    ensures Bitmap(dest) == 0
  {
    ZeroWord(dest[DEST_BITMAP_IDX..]);
  }

  // ---- The store ----

  datatype Key = Key(obj: byte, place: Place)

  type Rows = map<Key, seq<byte>>

  datatype Found = Data(bytes: seq<byte>) | Missing | WrongSize

  /** A block of another size was kept in another format and is not given out. */
  function Lookup(rows: Rows, key: Key, len: nat): Found {
    if key !in rows then Missing else if |rows[key]| != len then WrongSize else Data(rows[key])
  }

  datatype Request = Request(command: byte, subCommand: byte, obj: byte, dest: Dest, data: seq<byte>)

  datatype Reply = NotHandled | Fail | Success | Block(bytes: seq<byte>)

  /** The key that a write is stored under, or None when it is refused. */
  function WriteKey(rq: Request, moduleCount: nat): (k: Option<Key>)
    ensures k.Some? ==> k.value.obj == rq.obj && SpecOf(rq.obj).Some? && |rq.data| >= SpecOf(rq.obj).value.len
  {
    match SpecOf(rq.obj)
    case None => None
    case Some(spec) =>
      if rq.command != CMD_SND_DATA || rq.subCommand != SUBCMD_CHANGE || |rq.data| < spec.len then None
      else match KeyFor(spec, rq.dest, moduleCount)
        case None => None
        case Some(p) => Some(Key(rq.obj, p))
  }

  function AfterWrite(rows: Rows, rq: Request, moduleCount: nat): Rows {
    match WriteKey(rq, moduleCount)
    case None => rows
    case Some(key) => rows[key := rq.data[..SpecOf(rq.obj).value.len]]
  }

  function WriteReply(rq: Request, moduleCount: nat): Reply {
    if rq.command != CMD_SND_DATA || rq.subCommand != SUBCMD_CHANGE || SpecOf(rq.obj).None? then NotHandled
    else if WriteKey(rq, moduleCount).Some? then Success else Fail
  }

  /** Answered for the controller's own settings when none are stored. */
  function DefaultBasis(category: byte, kind: byte): (s: seq<byte>)
    ensures |s| == 13
  {
    [category, kind, 0x01, 0x05, 0xFF] + Zeros(8)
  }

  function ReadReply(rows: Rows, rq: Request, moduleCount: nat, category: byte, kind: byte): Reply {
    if rq.command != CMD_REQ_DATA || rq.subCommand != SUBCMD_READ then NotHandled
    else match SpecOf(rq.obj)
      case None => NotHandled
      case Some(spec) =>
        match KeyFor(spec, rq.dest, moduleCount)
        case None => Fail
        case Some(p) =>
          match Lookup(rows, Key(rq.obj, p), spec.len)
          case Data(bytes) => Block(bytes)
          case _ => if rq.obj == OBJ_DEVICE then Block(DefaultBasis(category, kind)) else Fail
  }

  /** A write is command 5/5 with at least a whole block for a place that there is; a request for another
      command or an unknown object is somebody else's. */
  lemma WriteAnswers(rq: Request, moduleCount: nat)
    ensures WriteReply(rq, moduleCount) == NotHandled <==>
      !(rq.command == 5 && rq.subCommand == 5 && SpecOf(rq.obj).Some?)
    ensures WriteReply(rq, moduleCount) == Success <==> WriteKey(rq, moduleCount).Some?
    ensures WriteReply(rq, moduleCount) == Success <==>
      && rq.command == 5 && rq.subCommand == 5 && SpecOf(rq.obj).Some? && |rq.data| >= SpecOf(rq.obj).value.len
      && KeyFor(SpecOf(rq.obj).value, rq.dest, moduleCount).Some?
  {
    hide SpecOf, KeyFor;
  }

  /** A read is command 6/2. It is answered with a stored block of the right size and never with anything else,
      except that the settings of the controller as a device have a default. */
  lemma ReadAnswers(rows: Rows, rq: Request, moduleCount: nat, category: byte, kind: byte)
    ensures var reply := ReadReply(rows, rq, moduleCount, category, kind);
      && (reply == NotHandled <==> !(rq.command == 6 && rq.subCommand == 2 && SpecOf(rq.obj).Some?))
      && (reply.Block? ==>
            var spec := SpecOf(rq.obj).value;
            && KeyFor(spec, rq.dest, moduleCount).Some? && |reply.bytes| == spec.len
            && var key := Key(rq.obj, KeyFor(spec, rq.dest, moduleCount).value);
            if key in rows && |rows[key]| == spec.len then reply.bytes == rows[key]
            else rq.obj == 0x29 && reply.bytes == [category, kind, 1, 5, 255, 0, 0, 0, 0, 0, 0, 0, 0])
      && (reply == Fail ==>
            && rq.command == 6 && rq.subCommand == 2 && SpecOf(rq.obj).Some?
            && var spec := SpecOf(rq.obj).value;
            var place := KeyFor(spec, rq.dest, moduleCount);
            place.Some? ==>
              rq.obj != 0x29 && !(Key(rq.obj, place.value) in rows && |rows[Key(rq.obj, place.value)]| == spec.len))
  {
    SpecTable(rq.obj);
    hide SpecOf, KeyFor;
    assert Zeros(8) == [0, 0, 0, 0, 0, 0, 0, 0];
  }

  class SettingsDb {
    var rows: Rows

    constructor (initial: Rows)
      ensures rows == initial
    {
      rows := initial;
    }

    method Get(key: Key, len: nat) returns (r: Found)
      ensures r == Lookup(rows, key, len)
    {
      if key !in rows { return Missing; }
      r := if |rows[key]| == len then Data(rows[key]) else WrongSize;
    }

    method Put(key: Key, data: seq<byte>) returns (ok: bool)
      modifies this
      ensures ok == (|data| > 0)
      ensures rows == if ok then old(rows)[key := data] else old(rows)
    {
      if |data| == 0 { return false; }
      rows := rows[key := data];
      ok := true;
    }
  }

  // ---- Runs of writes ----

  function AfterWrites(rows: Rows, writes: seq<Request>, moduleCount: nat): Rows {
    if writes == [] then rows
    else AfterWrite(AfterWrites(rows, writes[..|writes| - 1], moduleCount), writes[|writes| - 1], moduleCount)
  }

  /** `i` is the last write that was accepted for the key. */
  predicate IsLastWrite(writes: seq<Request>, moduleCount: nat, key: Key, i: nat) {
    i < |writes| && WriteKey(writes[i], moduleCount) == Some(key)
    && forall j | i < j < |writes| :: WriteKey(writes[j], moduleCount) != Some(key)
  }

  /** What a place holds after some writes. */
  ghost predicate KeepsLast(rows: Rows, writes: seq<Request>, moduleCount: nat, key: Key, after: Rows) {
    && (forall i: nat :: IsLastWrite(writes, moduleCount, key, i) ==>
          key in after && after[key] == writes[i].data[..SpecOf(writes[i].obj).value.len])
    && ((forall i | 0 <= i < |writes| :: WriteKey(writes[i], moduleCount) != Some(key)) ==>
          (key in after <==> key in rows) && (key in rows ==> after[key] == rows[key]))
  }

  lemma LastBefore(writes: seq<Request>, rq: Request, moduleCount: nat, key: Key, i: nat)
    ensures WriteKey(rq, moduleCount) != Some(key) ==>
      (IsLastWrite(writes + [rq], moduleCount, key, i) <==> IsLastWrite(writes, moduleCount, key, i))
    ensures WriteKey(rq, moduleCount) == Some(key) && IsLastWrite(writes + [rq], moduleCount, key, i) ==> i == |writes|
  {
    hide WriteKey;
    var all := writes + [rq];
    assert all[|writes|] == rq;
    assert forall j | 0 <= j < |writes| :: all[j] == writes[j];
  }

  lemma OneMoreWrite(rows: Rows, writes: seq<Request>, rq: Request, moduleCount: nat, key: Key, before: Rows)
    requires KeepsLast(rows, writes, moduleCount, key, before)
    ensures KeepsLast(rows, writes + [rq], moduleCount, key, AfterWrite(before, rq, moduleCount))
  {
    hide WriteKey, SpecOf, IsLastWrite;
    var all := writes + [rq];
    forall i: nat ensures WriteKey(rq, moduleCount) != Some(key) ==>
        (IsLastWrite(all, moduleCount, key, i) <==> IsLastWrite(writes, moduleCount, key, i))
      ensures WriteKey(rq, moduleCount) == Some(key) && IsLastWrite(all, moduleCount, key, i) ==> i == |writes|
    {
      LastBefore(writes, rq, moduleCount, key, i);
    }
    assert all[|writes|] == rq;
    assert forall j | 0 <= j < |writes| :: all[j] == writes[j];
    forall i: nat | IsLastWrite(writes, moduleCount, key, i) ensures i < |writes| {
      LastIsIn(writes, moduleCount, key, i);
    }
  }

  lemma LastIsIn(writes: seq<Request>, moduleCount: nat, key: Key, i: nat)
    requires IsLastWrite(writes, moduleCount, key, i)
    ensures i < |writes|
  {
  }

  /** A block is the one accepted last for its place, or was there before the run. */
  lemma {:induction false} LastWriteIsKept(rows: Rows, writes: seq<Request>, moduleCount: nat, key: Key)
    ensures KeepsLast(rows, writes, moduleCount, key, AfterWrites(rows, writes, moduleCount))
  {
    if writes == [] {
      hide WriteKey, SpecOf;
    } else {
      hide KeepsLast, WriteKey, SpecOf, AfterWrite;
      var n := |writes| - 1;
      LastWriteIsKept(rows, writes[..n], moduleCount, key);
      OneMoreWrite(rows, writes[..n], writes[n], moduleCount, key, AfterWrites(rows, writes[..n], moduleCount));
      assert writes[..n] + [writes[n]] == writes;
    }
  }

  /** Every place of every object: a read returns exactly the bytes of the last accepted write, whatever
      address named the place. */
  lemma ReadReturnsLastWrite(rows: Rows, writes: seq<Request>, i: nat, read: Request, moduleCount: nat,
                             category: byte, kind: byte)
    requires read.command == CMD_REQ_DATA && read.subCommand == SUBCMD_READ && SpecOf(read.obj).Some?
    requires var key := KeyFor(SpecOf(read.obj).value, read.dest, moduleCount);
      key.Some? && IsLastWrite(writes, moduleCount, Key(read.obj, key.value), i)
    ensures ReadReply(AfterWrites(rows, writes, moduleCount), read, moduleCount, category, kind)
            == Block(writes[i].data[..SpecOf(read.obj).value.len])
  {
    hide SpecOf, KeyFor;
    var place := KeyFor(SpecOf(read.obj).value, read.dest, moduleCount).value;
    LastWriteIsKept(rows, writes, moduleCount, Key(read.obj, place));
  }
}
