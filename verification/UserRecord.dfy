/** One user on the wire and in the store.

    The DM transfers users as 128-byte records (or 1808-byte records whose first 128 bytes are the
    same). `Decode` is the parser of acud/userbin.c, `Encode` its printer; `BuildRecord` fills a buffer
    the way build_record does. */
module UserRecord {
  import opened Bytes

  const REC_INFO_LEN: nat := 128
  const REC_INFO_FINGER_LEN: nat := 1808
  const OFF_USER: nat := 8
  const OFF_CARD: nat := 40
  const OFF_NAME: nat := 52
  const OFF_RESTRICT: nat := 68
  const OFF_GROUP: nat := 76
  const OFF_CRC_CALC: nat := 126
  const OFF_DATACRC: nat := 127
  const USERINFO_LEN: nat := 32

  type Id = s: seq<byte> | |s| == 8 witness [0, 0, 0, 0, 0, 0, 0, 0]
  type Text16 = s: seq<byte> | |s| == 16 witness [0, 0, 0, 0, 0, 0, 0, 0, 0, 0, 0, 0, 0, 0, 0, 0]

  const NO_ID: Id := [0, 0, 0, 0, 0, 0, 0, 0]

  datatype User = User(
    userId: Id, generalGroup: byte, revisionId: u16, accessOption: u32, level: byte,
    validationCode: u16, timezoneCode: u16, expiredDate: u32, proxType: byte, proxWiegand: byte,
    bioType: byte, bioTypeSub: byte, templateCount: byte, accessPassword: u16, canteenCode: byte,
    lcdName: Text16, restrictType: byte, restrictLimitType: byte, restrictLimitCount: byte,
    groupCodes: Text16)

  /** The fields a 32-byte User Info does not carry are left as `memset` leaves them. */
  function ParseUserInfo(info: seq<byte>): User
    requires |info| == USERINFO_LEN
  {
    User(info[..8], info[8], FromBe16(info[10..12]), FromBe32(info[12..16]), info[16],
         FromBe16(info[17..19]), FromBe16(info[19..21]), FromBe24(info[21..24]), info[24], info[25],
         info[26], info[27], info[28], FromBe16(info[29..31]), info[31],
         Zeros(16), 0, 0, 0, Zeros(16))
  }

  function BuildUserInfo(u: User): (info: seq<byte>)
    ensures |info| == USERINFO_LEN
  {
    u.userId + [u.generalGroup, 0] + Be16(u.revisionId) + Be32(u.accessOption) + [u.level]
    + Be16(u.validationCode) + Be16(u.timezoneCode) + Be24(u.expiredDate)
    + [u.proxType, u.proxWiegand, u.bioType, u.bioTypeSub, u.templateCount]
    + Be16(u.accessPassword) + [u.canteenCode]
  }

  /** The fields carried by User Info agree. */
  ghost predicate SameInfo(u: User, v: User) {
    && u.userId == v.userId && u.generalGroup == v.generalGroup && u.revisionId == v.revisionId
    && u.accessOption == v.accessOption && u.level == v.level && u.validationCode == v.validationCode
    && u.timezoneCode == v.timezoneCode && u.expiredDate == v.expiredDate && u.proxType == v.proxType
    && u.proxWiegand == v.proxWiegand && u.bioType == v.bioType && u.bioTypeSub == v.bioTypeSub
    && u.templateCount == v.templateCount && u.accessPassword == v.accessPassword
    && u.canteenCode == v.canteenCode
  }

  lemma InfoSlices(u: User)
    ensures var info := BuildUserInfo(u);
      && info[..8] == u.userId && info[8] == u.generalGroup && info[9] == 0
      && info[10..12] == Be16(u.revisionId) && info[12..16] == Be32(u.accessOption) && info[16] == u.level
      && info[17..19] == Be16(u.validationCode) && info[19..21] == Be16(u.timezoneCode)
      && info[21..24] == Be24(u.expiredDate)
      && info[24..29] == [u.proxType, u.proxWiegand, u.bioType, u.bioTypeSub, u.templateCount]
      && info[29..31] == Be16(u.accessPassword) && info[31] == u.canteenCode
  {
  }

  /** Only the date can lose anything: it has three bytes on the wire. */
  lemma InfoRoundTrip(u: User)
    ensures SameInfo(ParseUserInfo(BuildUserInfo(u)), u.(expiredDate := u.expiredDate % 0x100_0000))
  {
    var info := BuildUserInfo(u);
    InfoSlices(u);
    Be16RoundTrip(u.revisionId, info[10..12]);
    Be32RoundTrip(u.accessOption, info[12..16]);
    Be16RoundTrip(u.validationCode, info[17..19]);
    Be16RoundTrip(u.timezoneCode, info[19..21]);
    Be24RoundTrip(u.expiredDate, info[21..24]);
    Be16RoundTrip(u.accessPassword, info[29..31]);
    assert info[24..29][0] == info[24] && info[24..29][1] == info[25] && info[24..29][2] == info[26]
           && info[24..29][3] == info[27] && info[24..29][4] == info[28];
  }

  /** Building from what was parsed gives back every byte but the reserved one. */
  lemma InfoRebuilds(info: seq<byte>)
    requires |info| == USERINFO_LEN
    ensures BuildUserInfo(ParseUserInfo(info)) == info[9 := 0]
  {
    var u := ParseUserInfo(info);
    Be16RoundTrip(0, info[10..12]);
    Be32RoundTrip(0, info[12..16]);
    Be16RoundTrip(0, info[17..19]);
    Be16RoundTrip(0, info[19..21]);
    Be24RoundTrip(0, info[21..24]);
    Be16RoundTrip(0, info[29..31]);
    calc {
      BuildUserInfo(u);
      info[..8] + [info[8], 0] + info[10..12] + info[12..16] + [info[16]] + info[17..19] + info[19..21]
        + info[21..24] + [info[24], info[25], info[26], info[27], info[28]] + info[29..31] + [info[31]];
      info[9 := 0];
    }
  }

  // ---- The 128-byte record ----

  /** A user with its card; the all-zero card stands for none. */
  datatype Entry = Entry(user: User, card: Id)

  /** The checked part of a record: bytes 8 to 126. */
  function Body(e: Entry): (b: seq<byte>)
    ensures |b| == OFF_DATACRC - OFF_USER
  {
    BuildUserInfo(e.user) + e.card + Zeros(4) + e.user.lcdName
    + [e.user.restrictType, e.user.restrictLimitType, e.user.restrictLimitCount] + Zeros(5)
    + e.user.groupCodes + Zeros(34) + [1]
  }

  function Encode(e: Entry, index: u32): (rec: seq<byte>)
    ensures |rec| == REC_INFO_LEN
  {
    Be32(index) + Be32(index) + Body(e) + [XorAll(Body(e))]
  }

  function Decode(rec: seq<byte>): Entry
    requires |rec| >= REC_INFO_LEN
  {
    var info := ParseUserInfo(rec[OFF_USER..OFF_CARD]);
    Entry(info.(lcdName := rec[OFF_NAME..OFF_RESTRICT],
                restrictType := rec[OFF_RESTRICT], restrictLimitType := rec[OFF_RESTRICT + 1],
                restrictLimitCount := rec[OFF_RESTRICT + 2], groupCodes := rec[OFF_GROUP..OFF_GROUP + 16]),
          rec[OFF_CARD..OFF_CARD + 8])
  }

  predicate CrcOk(rec: seq<byte>)
    requires |rec| >= REC_INFO_LEN
  {
    XorAll(rec[OFF_USER..OFF_DATACRC]) == rec[OFF_DATACRC]
  }

  /** What store_record keeps of a record, if anything. */
  predicate Accepted(rec: seq<byte>)
    requires |rec| >= REC_INFO_LEN
  {
    CrcOk(rec) && Decode(rec).user.userId != NO_ID
  }

  method RecordCrcOk(rec: seq<byte>) returns (ok: bool)
    requires |rec| >= REC_INFO_LEN
    ensures ok <==> CrcOk(rec)
  {
    var x := ComputeXor(rec, OFF_USER, OFF_CRC_CALC + 1);
    ok := x == rec[OFF_DATACRC];
  }

  /** The part that was put behind p stays where it is, whatever follows. */
  lemma PartAt(p: seq<byte>, q: seq<byte>, b: seq<byte>)
    requires p + q <= b
    ensures p <= b && b[|p|..|p| + |q|] == q
  {
    assert (p + q)[..|p|] == p && (p + q)[|p|..] == q;
  }

  lemma BodySlices(e: Entry)
    ensures var b := Body(e);
      && b[..32] == BuildUserInfo(e.user) && b[32..40] == e.card && b[40..44] == Zeros(4) && b[44..60] == e.user.lcdName
      && b[60..63] == [e.user.restrictType, e.user.restrictLimitType, e.user.restrictLimitCount]
      && b[63..68] == Zeros(5) && b[68..84] == e.user.groupCodes && b[84..118] == Zeros(34) && b[118] == 1
  {
    hide BuildUserInfo, Zeros;
    var b := Body(e);
    var p1 := BuildUserInfo(e.user) + e.card;
    var p2 := p1 + Zeros(4);
    var p3 := p2 + e.user.lcdName;
    var p4 := p3 + [e.user.restrictType, e.user.restrictLimitType, e.user.restrictLimitCount];
    var p5 := p4 + Zeros(5);
    var p6 := p5 + e.user.groupCodes;
    var p7 := p6 + Zeros(34);
    assert b == p7 + [1];
    hide Body;
    PartAt(p7, [1], b);
    PartAt(p6, Zeros(34), b);
    PartAt(p5, e.user.groupCodes, b);
    PartAt(p4, Zeros(5), b);
    PartAt(p3, [e.user.restrictType, e.user.restrictLimitType, e.user.restrictLimitCount], b);
    PartAt(p2, e.user.lcdName, b);
    PartAt(p1, Zeros(4), b);
    PartAt(BuildUserInfo(e.user), e.card, b);
    assert b[118] == b[118..119][0];
  }

  lemma BodyInRecord(rec: seq<byte>, b: seq<byte>)
    requires |rec| == 128 && |b| == 119 && rec[8..127] == b
    ensures rec[8..40] == b[..32] && rec[40..48] == b[32..40] && rec[48..52] == b[40..44] && rec[52..68] == b[44..60]
    ensures rec[68..71] == b[60..63] && rec[71..76] == b[63..68] && rec[76..92] == b[68..84]
    ensures rec[92..126] == b[84..118]
    ensures rec[126] == b[118]
  {
    SliceOfSlice(rec, 8, 127, 0, 32);
    SliceOfSlice(rec, 8, 127, 32, 40);
    SliceOfSlice(rec, 8, 127, 40, 44);
    SliceOfSlice(rec, 8, 127, 44, 60);
    SliceOfSlice(rec, 8, 127, 60, 63);
    SliceOfSlice(rec, 8, 127, 63, 68);
    SliceOfSlice(rec, 8, 127, 68, 84);
    SliceOfSlice(rec, 8, 127, 84, 118);
    assert rec[8..127][118] == rec[126];
  }

  lemma RecordSlices(e: Entry, index: u32)
    ensures var rec := Encode(e, index);
      && rec[..4] == rec[4..8] == Be32(index)
      && rec[OFF_USER..OFF_DATACRC] == Body(e) && rec[OFF_DATACRC] == XorAll(Body(e))
      && rec[OFF_USER..OFF_CARD] == BuildUserInfo(e.user) && rec[OFF_CARD..OFF_CARD + 8] == e.card
      && rec[OFF_NAME..OFF_RESTRICT] == e.user.lcdName
      && rec[OFF_RESTRICT..OFF_RESTRICT + 3]
         == [e.user.restrictType, e.user.restrictLimitType, e.user.restrictLimitCount]
      && rec[OFF_GROUP..OFF_GROUP + 16] == e.user.groupCodes
      && rec[OFF_CRC_CALC] == 1
  {
    BodySlices(e);
    hide Body, BuildUserInfo, Be32, XorAll;
    var rec, b := Encode(e, index), Body(e);
    PartAt(Be32(index), Be32(index), rec);
    PartAt(Be32(index) + Be32(index), b, rec);
    PartAt(Be32(index) + Be32(index) + b, [XorAll(b)], rec);
    assert rec[127] == rec[127..128][0];
    hide Encode;
    BodyInRecord(rec, b);
  }

  /** Where each field stands in a 128-byte record, multi-byte fields with the most significant byte first; all
      other bytes are zero, and bytes 8 to 127 add up to zero. */
  lemma RecordLayout(e: Entry, index: u32)
    ensures var r := Encode(e, index);
      var u := e.user;
      && |r| == 128 && r[..4] == Be32(index) && r[4..8] == Be32(index)
      && r[8..16] == u.userId && r[16] == u.generalGroup && r[18..20] == Be16(u.revisionId)
      && r[20..24] == Be32(u.accessOption) && r[24] == u.level && r[25..27] == Be16(u.validationCode)
      && r[27..29] == Be16(u.timezoneCode) && r[29..32] == Be24(u.expiredDate)
      && r[32] == u.proxType && r[33] == u.proxWiegand && r[34] == u.bioType && r[35] == u.bioTypeSub
      && r[36] == u.templateCount && r[37..39] == Be16(u.accessPassword) && r[39] == u.canteenCode
      && r[40..48] == e.card && r[52..68] == u.lcdName
      && r[68] == u.restrictType && r[69] == u.restrictLimitType && r[70] == u.restrictLimitCount
      && r[76..92] == u.groupCodes && r[126] == 1 && r[127] == XorAll(r[8..127])
      && r[17] == 0 && r[48..52] == Zeros(4) && r[71..76] == Zeros(5) && r[92..126] == Zeros(34)
  {
    RecordSlices(e, index);
    InfoSlices(e.user);
    BodySlices(e);
    hide Encode, Body, BuildUserInfo, Be16, Be32, Be24, XorAll;
    var r := Encode(e, index);
    BodyInRecord(r, Body(e));
    InfoPlaces(r, BuildUserInfo(e.user));
    assert r[68..71][0] == r[68] && r[68..71][1] == r[69] && r[68..71][2] == r[70];
  }

  lemma InfoPlaces(r: seq<byte>, info: seq<byte>)
    requires |r| == 128 && info == r[8..40]
    ensures info[..8] == r[8..16] && info[8] == r[16] && info[9] == r[17] && info[10..12] == r[18..20]
    ensures info[12..16] == r[20..24] && info[16] == r[24] && info[17..19] == r[25..27] && info[19..21] == r[27..29]
    ensures info[21..24] == r[29..32] && info[29..31] == r[37..39] && info[31] == r[39]
    ensures info[24..29] == [r[32], r[33], r[34], r[35], r[36]]
  {
    SliceOfSlice(r, 8, 40, 0, 8);
    SliceOfSlice(r, 8, 40, 10, 12);
    SliceOfSlice(r, 8, 40, 12, 16);
    SliceOfSlice(r, 8, 40, 17, 19);
    SliceOfSlice(r, 8, 40, 19, 21);
    SliceOfSlice(r, 8, 40, 21, 24);
    SliceOfSlice(r, 8, 40, 24, 29);
    SliceOfSlice(r, 8, 40, 29, 31);
  }

  /** The wire carries three bytes of the expiry date. */
  function OnWire(e: Entry): Entry {
    e.(user := e.user.(expiredDate := e.user.expiredDate % 0x100_0000))
  }

  /** Printing then parsing: an encoded record passes its check and gives back the user and the card. */
  lemma EncodeDecode(e: Entry, index: u32)
    ensures var rec := Encode(e, index); CrcOk(rec) && Decode(rec) == OnWire(e)
    ensures e.user.userId != NO_ID ==> Accepted(Encode(e, index))
  {
    var rec := Encode(e, index);
    RecordSlices(e, index);
    InfoRoundTrip(e.user);
    var r3 := rec[OFF_RESTRICT..OFF_RESTRICT + 3];
    assert r3[0] == rec[OFF_RESTRICT] && r3[1] == rec[OFF_RESTRICT + 1] && r3[2] == rec[OFF_RESTRICT + 2];
  }

  /** Parsing then printing: every byte that means something comes back as it was received. */
  lemma DecodeEncode(rec: seq<byte>, index: u32)
    requires |rec| >= REC_INFO_LEN
    ensures var back := Encode(Decode(rec), index);
      && back[OFF_USER..OFF_CARD] == rec[OFF_USER..OFF_CARD][9 := 0]
      && back[OFF_CARD..OFF_CARD + 8] == rec[OFF_CARD..OFF_CARD + 8]
      && back[OFF_NAME..OFF_RESTRICT] == rec[OFF_NAME..OFF_RESTRICT]
      && back[OFF_RESTRICT..OFF_RESTRICT + 3] == rec[OFF_RESTRICT..OFF_RESTRICT + 3]
      && back[OFF_GROUP..OFF_GROUP + 16] == rec[OFF_GROUP..OFF_GROUP + 16]
  {
    var e := Decode(rec);
    RecordSlices(e, index);
    var info := rec[OFF_USER..OFF_CARD];
    InfoRebuilds(info);
    InfoIgnoresRest(ParseUserInfo(info), e.user);
  }

  lemma InfoIgnoresRest(u: User, v: User)
    requires SameInfo(u, v)
    ensures BuildUserInfo(u) == BuildUserInfo(v)
  {
  }

  /** The check catches any single altered byte from the User Info to the check byte itself. */
  lemma AlteredRecordRejected(rec: seq<byte>, i: nat, b: byte)
    requires |rec| >= REC_INFO_LEN && CrcOk(rec)
    requires OFF_USER <= i <= OFF_DATACRC && b != rec[i]
    ensures !CrcOk(rec[i := b])
  {
    var body, body' := rec[OFF_USER..OFF_DATACRC], rec[i := b][OFF_USER..OFF_DATACRC];
    if i == OFF_DATACRC {
      assert body == body';
    } else {
      assert body' == body[i - OFF_USER := b];
      XorAllDetects(body, body', i - OFF_USER);
    }
  }

  // ---- Filling a buffer in place ----

  /** A buffer whose fields are all in place. */
  ghost predicate Filled(rec: seq<byte>, e: Entry) {
    && |rec| == REC_INFO_LEN
    && rec[OFF_USER..OFF_CARD] == BuildUserInfo(e.user) && rec[OFF_CARD..OFF_CARD + 8] == e.card
    && AllZero(rec[OFF_CARD + 8..OFF_NAME])
    && rec[OFF_NAME..OFF_RESTRICT] == e.user.lcdName
    && rec[OFF_RESTRICT] == e.user.restrictType && rec[OFF_RESTRICT + 1] == e.user.restrictLimitType
    && rec[OFF_RESTRICT + 2] == e.user.restrictLimitCount && AllZero(rec[OFF_RESTRICT + 3..OFF_GROUP])
    && rec[OFF_GROUP..OFF_GROUP + 16] == e.user.groupCodes && AllZero(rec[OFF_GROUP + 16..OFF_CRC_CALC])
    && rec[OFF_CRC_CALC] == 1
  }

  lemma FilledIsBody(rec: seq<byte>, e: Entry)
    requires Filled(rec, e)
    ensures rec[OFF_USER..OFF_DATACRC] == Body(e)
  {
    assert rec[OFF_CARD + 8..OFF_NAME] == Zeros(4);
    assert rec[OFF_RESTRICT + 3..OFF_GROUP] == Zeros(5);
    assert rec[OFF_GROUP + 16..OFF_CRC_CALC] == Zeros(34);
    var limits := [rec[OFF_RESTRICT], rec[OFF_RESTRICT + 1], rec[OFF_RESTRICT + 2]];
    assert rec[OFF_RESTRICT..OFF_RESTRICT + 3] == limits;
    Join(rec, OFF_USER, OFF_CARD, OFF_CARD + 8);
    Join(rec, OFF_USER, OFF_CARD + 8, OFF_NAME);
    Join(rec, OFF_USER, OFF_NAME, OFF_RESTRICT);
    Join(rec, OFF_USER, OFF_RESTRICT, OFF_RESTRICT + 3);
    Join(rec, OFF_USER, OFF_RESTRICT + 3, OFF_GROUP);
    Join(rec, OFF_USER, OFF_GROUP, OFF_GROUP + 16);
    Join(rec, OFF_USER, OFF_GROUP + 16, OFF_CRC_CALC);
    Join(rec, OFF_USER, OFF_CRC_CALC, OFF_DATACRC);
    assert rec[OFF_CRC_CALC..OFF_DATACRC] == [rec[OFF_CRC_CALC]];
  }

  lemma Join(s: seq<byte>, i: nat, j: nat, k: nat)
    requires i <= j <= k <= |s|
    ensures s[i..k] == s[i..j] + s[j..k]
  {
  }

  /** build_record: clear, fill the fields, then run the checksum over what was written. */
  method BuildRecord(e: Entry, index: u32, rec: array<byte>)
    requires rec.Length == REC_INFO_LEN
    modifies rec
    ensures rec[..] == Encode(e, index)
  {
    Blit(rec, 0, Zeros(REC_INFO_LEN));
    Blit(rec, 0, Be32(index));
    Blit(rec, 4, Be32(index));
    FillFields(e, rec);
    FilledIsBody(rec[..], e);
    var crc := ComputeXor(rec[..], OFF_USER, OFF_CRC_CALC + 1);
    rec[OFF_DATACRC] := crc;
    assert rec[..][0..4] == Be32(index) && rec[..][4..8] == Be32(index);
    Join(rec[..], 0, 4, 8);
    Join(rec[..], 0, 8, OFF_DATACRC);
    Join(rec[..], 0, OFF_DATACRC, REC_INFO_LEN);
  }

  /** What byte k of a cleared buffer becomes. */
  function FieldByte(e: Entry, k: nat): byte
    requires OFF_USER <= k
  {
    if k < OFF_CARD then BuildUserInfo(e.user)[k - OFF_USER]
    else if k < OFF_CARD + 8 then e.card[k - OFF_CARD]
    else if OFF_NAME <= k < OFF_RESTRICT then e.user.lcdName[k - OFF_NAME]
    else if k == OFF_RESTRICT then e.user.restrictType
    else if k == OFF_RESTRICT + 1 then e.user.restrictLimitType
    else if k == OFF_RESTRICT + 2 then e.user.restrictLimitCount
    else if OFF_GROUP <= k < OFF_GROUP + 16 then e.user.groupCodes[k - OFF_GROUP]
    else if k == OFF_CRC_CALC then 1
    else 0
  }

  lemma FieldsFill(r: seq<byte>, e: Entry)
    requires |r| == REC_INFO_LEN && forall k | OFF_USER <= k < REC_INFO_LEN :: r[k] == FieldByte(e, k)
    ensures Filled(r, e)
  {
    hide BuildUserInfo;
    assert r[OFF_USER..OFF_CARD] == BuildUserInfo(e.user);
    assert r[OFF_CARD..OFF_CARD + 8] == e.card;
    assert r[OFF_NAME..OFF_RESTRICT] == e.user.lcdName;
    assert r[OFF_GROUP..OFF_GROUP + 16] == e.user.groupCodes;
  }

  method FillFields(e: Entry, rec: array<byte>)
    requires rec.Length == REC_INFO_LEN
    requires forall k | OFF_USER <= k < REC_INFO_LEN :: rec[k] == 0
    modifies rec
    ensures forall k | 0 <= k < OFF_USER :: rec[k] == old(rec[k])
    ensures Filled(rec[..], e)
  {
    hide BuildUserInfo;
    FillBlocks(e, rec);
    rec[OFF_RESTRICT] := e.user.restrictType;
    rec[OFF_RESTRICT + 1] := e.user.restrictLimitType;
    rec[OFF_RESTRICT + 2] := e.user.restrictLimitCount;
    FillCard(e.card, rec);
    rec[OFF_CRC_CALC] := 0x01;
    hide Filled;
    FieldsFill(rec[..], e);
  }

  /** The fields that are copied as they stand. */
  method FillBlocks(e: Entry, rec: array<byte>)
    requires rec.Length == REC_INFO_LEN
    modifies rec
    ensures forall k | 0 <= k < REC_INFO_LEN ::
      rec[k] == (if OFF_USER <= k < OFF_CARD || OFF_NAME <= k < OFF_RESTRICT || OFF_GROUP <= k < OFF_GROUP + 16
                 then FieldByte(e, k) else old(rec[k]))
  {
    hide BuildUserInfo;
    Blit(rec, OFF_USER, BuildUserInfo(e.user));
    Blit(rec, OFF_NAME, e.user.lcdName);
    Blit(rec, OFF_GROUP, e.user.groupCodes);
  }

  /** An all-zero card is not written: the buffer is clear there. */
  method FillCard(card: Id, rec: array<byte>)
    requires rec.Length == REC_INFO_LEN && forall k | OFF_CARD <= k < OFF_CARD + 8 :: rec[k] == 0
    modifies rec
    ensures forall k | 0 <= k < REC_INFO_LEN ::
      rec[k] == (if OFF_CARD <= k < OFF_CARD + 8 then card[k - OFF_CARD] else old(rec[k]))
  {
    if card != NO_ID { Blit(rec, OFF_CARD, card); }
  }
}
