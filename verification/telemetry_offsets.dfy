/** Where the fields the race scans read sit in a 1367-byte telemetry buffer.

    The header's type byte is byte 2, the game/session byte 3, the participant
    count byte 5 and the race-state flags byte 10. Participant `i`'s block
    takes the 16 bytes from offset `464 + 16 i`; its race-position byte is the
    block's byte 8 and its sector byte the block's byte 11. The lemmas go from
    a value's index in the format to its byte offset, and from the decoded
    record's fields to the values they were popped from.
 */
module TelemetryOffsets {
  import opened Bytes
  import opened StructFormat
  import opened TelemetryLayout
  import opened Telemetry
  import Packet
  import TelemetryFields
  import ParticipantInfoFields
  import RaceStream

  // ---------------------------------------------------------------------------
  // Codes and their offsets
  // ---------------------------------------------------------------------------

  /** The segments in front of the participant blocks. */
  const FrontFormat: seq<Kind> :=
    Packet.HeaderFormat + (StateFormat + (TimingsFormat + (ControlsFormat
    + (CarFormat + (MotionFormat + (WheelsFormat + EnvironmentFormat))))))

  /** Concatenation regroups. */
  lemma Regroup(a: seq<Kind>, b: seq<Kind>, c: seq<Kind>)
    ensures a + (b + c) == (a + b) + c
  {
  }

  /** The layout is the front segments followed by the participant blocks. */
  lemma FrontCodes()
    ensures TelemetryFormat == FrontFormat + FromParticipants
  {
    var w := WheelsFormat + EnvironmentFormat;
    var m := MotionFormat + w;
    var c := CarFormat + m;
    var k := ControlsFormat + c;
    var t := TimingsFormat + k;
    var s := StateFormat + t;
    var p := FromParticipants;
    Regroup(WheelsFormat, EnvironmentFormat, p);
    Regroup(MotionFormat, w, p);
    Regroup(CarFormat, m, p);
    Regroup(ControlsFormat, c, p);
    Regroup(TimingsFormat, k, p);
    Regroup(StateFormat, t, p);
    Regroup(Packet.HeaderFormat, s, p);
  }

  /** The front segments are 178 codes. */
  lemma FrontLength()
    ensures |FrontFormat| == 178
  {
    SegmentLengths();
  }

  /** The front segments take 464 bytes. */
  lemma FrontBytes()
    ensures CalcSize(FrontFormat) == 464
  {
    var w := WheelsFormat + EnvironmentFormat;
    var m := MotionFormat + w;
    var c := CarFormat + m;
    var k := ControlsFormat + c;
    var t := TimingsFormat + k;
    var s := StateFormat + t;
    assert FrontFormat == Packet.HeaderFormat + s;
    StateSize();
    TimingsSize();
    ControlsSize();
    CarSize();
    MotionSize();
    WheelsSize();
    EnvironmentSize();
    Packet.HeaderFormatSize();
    CalcSizeAppend(WheelsFormat, EnvironmentFormat);
    CalcSizeAppend(MotionFormat, w);
    CalcSizeAppend(CarFormat, m);
    CalcSizeAppend(ControlsFormat, c);
    CalcSizeAppend(TimingsFormat, k);
    CalcSizeAppend(StateFormat, t);
    CalcSizeAppend(Packet.HeaderFormat, s);
  }

  /** The packet-type code is code 1 of the layout, after the two-byte
      build version. */
  lemma HeaderCodeAt()
    ensures 1 < |TelemetryFormat| && TelemetryFormat[1] == UByte
    ensures CalcSize(TelemetryFormat[..1]) == 2
  {
    assert TelemetryFormat == Packet.HeaderFormat + FromState;
    PrefixWithin(Packet.HeaderFormat, FromState, 1);
    assert Packet.HeaderFormat[..1] == [UShort];
  }

  /** State code `k` is code `2 + k` of the layout, and every code in front
      of it is one byte wide except the header's u16. */
  lemma StateCodeAt(k: nat)
    requires k < 9
    ensures 2 + k < |TelemetryFormat| && TelemetryFormat[2 + k] == StateFormat[k]
    ensures CalcSize(TelemetryFormat[..2 + k]) == 3 + k
  {
    assert TelemetryFormat == Packet.HeaderFormat + (StateFormat + FromTimings);
    Packet.HeaderFormatSize();
    PrefixThrough(Packet.HeaderFormat, StateFormat, FromTimings, k);
    assert forall c | c in StateFormat[..k] :: c in StateFormat;
    ByteWideSize(StateFormat[..k]);
    CalcSizeAppend(Packet.HeaderFormat, StateFormat[..k]);
  }

  /** Code `m` of repetition `i` of a nine-code format: the codes in front
      of it are `i` whole repetitions and the format's first `m` codes. */
  lemma {:induction false} NineRepeatAt(fmt: seq<Kind>, n: nat, i: nat, m: nat)
    requires |fmt| == 9
    requires i < n && m < 9
    ensures 9 * i + m < |Repeat(fmt, n)|
    ensures Repeat(fmt, n)[9 * i + m] == fmt[m]
    ensures Repeat(fmt, n)[..9 * i + m] == Repeat(fmt, i) + fmt[..m]
    decreases n
  {
    var r, later := Repeat(fmt, n), Repeat(fmt, n - 1);
    assert r == fmt + later;
    if i == 0 {
      PrefixWithin(fmt, later, m);
      assert Repeat(fmt, 0) + fmt[..m] == fmt[..m];
    } else {
      var j := 9 * (i - 1) + m;
      NineRepeatAt(fmt, n - 1, i - 1, m);
      assert 9 * i + m == 9 + j;
      PrefixPast(fmt, later, j);
      assert r[9 + j] == fmt[m];
      assert r[..9 + j] == fmt + (Repeat(fmt, i - 1) + fmt[..m]);
      assert Repeat(fmt, i) == fmt + Repeat(fmt, i - 1);
      Regroup(fmt, Repeat(fmt, i - 1), fmt[..m]);
    }
  }

  /** The byte sizes of the block codes in front of the race-position byte
      and of the sector byte. */
  lemma InfoPrefixSizes()
    ensures CalcSize(InfoFormat[..4]) == 8 && CalcSize(InfoFormat[..7]) == 11
  {
    assert SizeBack(InfoFormat[..1]) == 2;
    assert InfoFormat[..2][..1] == InfoFormat[..1];
    assert SizeBack(InfoFormat[..2]) == 4;
    assert InfoFormat[..3][..2] == InfoFormat[..2];
    assert SizeBack(InfoFormat[..3]) == 6;
    assert InfoFormat[..4][..3] == InfoFormat[..3];
    assert SizeBack(InfoFormat[..4]) == 8;
    assert InfoFormat[..5][..4] == InfoFormat[..4];
    assert SizeBack(InfoFormat[..5]) == 9;
    assert InfoFormat[..6][..5] == InfoFormat[..5];
    assert SizeBack(InfoFormat[..6]) == 10;
    assert InfoFormat[..7][..6] == InfoFormat[..6];
    assert SizeBack(InfoFormat[..7]) == 11;
    SizeBackIsCalcSize(InfoFormat[..4]);
    SizeBackIsCalcSize(InfoFormat[..7]);
  }

  /** The codes of `a + b` up to a position inside `a`. */
  lemma PrefixWithin(a: seq<Kind>, b: seq<Kind>, j: nat)
    requires j < |a|
    ensures (a + b)[j] == a[j] && (a + b)[..j] == a[..j]
  {
  }

  /** The codes of `a + b` up to position `j` of `b`. */
  lemma PrefixPast(a: seq<Kind>, b: seq<Kind>, j: nat)
    requires j < |b|
    ensures (a + b)[|a| + j] == b[j] && (a + b)[..|a| + j] == a + b[..j]
  {
  }

  /** The codes of `a + (b + c)` up to position `j` of `b`. */
  lemma PrefixThrough(a: seq<Kind>, b: seq<Kind>, c: seq<Kind>, j: nat)
    requires j < |b|
    ensures (a + (b + c))[|a| + j] == b[j]
    ensures (a + (b + c))[..|a| + j] == a + b[..j]
  {
  }

  /** Code `m` of block `i` of a layout that puts `n` blocks of a nine-code,
      16-byte format after the codes `front`: it follows `i` whole blocks
      and the block's own first `m` codes. */
  lemma BlockCodeIn(fmt: seq<Kind>, front: seq<Kind>, n: nat, tail: seq<Kind>, i: nat, m: nat)
    requires |fmt| == 9 && CalcSize(fmt) == 16
    requires i < n && m < 9
    ensures |front| + 9 * i + m < |front + (Repeat(fmt, n) + tail)|
    ensures (front + (Repeat(fmt, n) + tail))[|front| + 9 * i + m] == fmt[m]
    ensures CalcSize((front + (Repeat(fmt, n) + tail))[..|front| + 9 * i + m])
         == CalcSize(front) + 16 * i + CalcSize(fmt[..m])
  {
    var j := 9 * i + m;
    var blocks := Repeat(fmt, i) + fmt[..m];
    NineRepeatAt(fmt, n, i, m);
    PrefixThrough(front, Repeat(fmt, n), tail, j);
    assert (front + (Repeat(fmt, n) + tail))[..|front| + j] == front + blocks;
    CalcSizeRepeat(fmt, i);
    assert CalcSize(Repeat(fmt, i)) == 16 * i;
    CalcSizeAppend(Repeat(fmt, i), fmt[..m]);
    CalcSizeAppend(front, blocks);
  }

  // ---------------------------------------------------------------------------
  // Values and the fields built from them
  // ---------------------------------------------------------------------------

  /** Participant `i`'s race-position code, and the byte it is read from. */
  function PositionCode(i: nat): nat { 178 + 9 * i + 4 }
  function PositionByte(i: nat): nat { 464 + 16 * i + 8 }

  /** Participant `i`'s sector code, and the byte it is read from. */
  function SectorCode(i: nat): nat { 178 + 9 * i + 7 }
  function SectorByte(i: nat): nat { 464 + 16 * i + 11 }

  /** The record's fields the race scans read are these values of the
      unpacked layout. */
  predicate FieldsFromValues(t: TelemetryDataPacket, vs: seq<Value>) {
    && |vs| == 686
    && vs[1] == Int(t.header.rawType)
    && vs[2] == Int(t.state.gameSessionState)
    && vs[4] == Int(t.state.numParticipants)
    && vs[9] == Int(t.state.raceStateFlags)
    && |t.participantInfo| == 56
    && forall i | 0 <= i < 56 ::
         && vs[PositionCode(i)] == Int(t.participantInfo[i].racePositionByte)
         && vs[SectorCode(i)] == Int(t.participantInfo[i].sectorByte)
  }

  /** Those values are the bytes at their offsets. */
  predicate ValuesFromBytes(vs: seq<Value>, d: seq<byte>) {
    && |vs| == 686 && |d| == 1367
    && vs[1] == Int(d[2]) && vs[2] == Int(d[3]) && vs[4] == Int(S8(d[5])) && vs[9] == Int(d[10])
    && forall i | 0 <= i < 56 ::
         vs[PositionCode(i)] == Int(d[PositionByte(i)]) && vs[SectorCode(i)] == Int(d[SectorByte(i)])
  }

  /** The record's fields the race scans read are the buffer's bytes 2, 3, 5
      and 10 and bytes 8 and 11 of each participant's 16-byte block. */
  predicate FieldsFromBytes(t: TelemetryDataPacket, d: seq<byte>) {
    && |d| == 1367
    && t.header.rawType == d[2]
    && t.state.gameSessionState == d[3]
    && t.state.numParticipants == S8(d[5])
    && t.state.raceStateFlags == d[10]
    && |t.participantInfo| == 56
    && forall i | 0 <= i < 56 ::
         && t.participantInfo[i].racePositionByte == d[472 + 16 * i]
         && t.participantInfo[i].sectorByte == d[475 + 16 * i]
  }

  /** Value `m` of block `i` of nine-value blocks joined end to end is value
      `9 i + m` of the join. */
  lemma {:induction false} ConcatNineAt(bs: seq<seq<Value>>, i: nat, m: nat)
    requires forall k | 0 <= k < |bs| :: |bs[k]| == 9
    requires i < |bs| && m < 9
    ensures 9 * i + m < |Concat(bs)| && Concat(bs)[9 * i + m] == bs[i][m]
    decreases |bs|
  {
    var rest := Concat(bs[1..]);
    assert Concat(bs) == bs[0] + rest;
    assert |bs[0]| == 9;
    if i > 0 {
      assert forall k | 0 <= k < |bs[1..]| :: |bs[1..][k]| == 9;
      ConcatNineAt(bs[1..], i - 1, m);
      assert bs[1..][i - 1] == bs[i];
    }
  }

  /** The race-position and sector values of participant block `i` are the
      bytes its record keeps. */
  lemma InfoFieldsAt(n: nat, ps: seq<Value>, i: nat)
    requires Conforms(Repeat(InfoFormat, n), ps)
    requires i < n
    ensures 9 * i + 7 < |ps|
    ensures ps[9 * i + 4] == Int(ParticipantsOf(ps, n)[i].racePositionByte)
    ensures ps[9 * i + 7] == Int(ParticipantsOf(ps, n)[i].sectorByte)
  {
    InfoSize();
    var infos := ParticipantsOf(ps, n);
    var bs := seq(n, k requires 0 <= k < n => InfoValues(infos[k]));
    assert bs[i] == InfoValues(infos[i]);
    ParticipantsRoundTrip(ps, n);
    assert ParticipantsValues(infos) == Concat(bs);
    ConcatNineAt(bs, i, 4);
    ConcatNineAt(bs, i, 7);
  }

  /** Building the record keeps the values the scans read. */
  lemma BuildFields(hash: int, vs: seq<Value>)
    requires Conforms(TelemetryFormat, vs)
    ensures FieldsFromValues(Build(hash, vs), vs)
  {
    TelemetrySegments(vs);
    var t := Build(hash, vs);
    assert t.header == Packet.HeaderOf(vs[..2]) && t.state == StateOf(vs[2..11]);
    assert t.participantInfo == ParticipantsOf(vs[178..682], 56);
    FieldsOfSegments(t, vs);
  }

  /** `BuildFields` for any record read from the header, state and
      participant segments. */
  lemma FieldsOfSegments(t: TelemetryDataPacket, vs: seq<Value>)
    requires |vs| == 686
    requires Conforms(Packet.HeaderFormat, vs[..2]) && Conforms(StateFormat, vs[2..11])
    requires Conforms(ParticipantsFormat, vs[178..682])
    requires t.header == Packet.HeaderOf(vs[..2]) && t.state == StateOf(vs[2..11])
    requires t.participantInfo == ParticipantsOf(vs[178..682], 56)
    ensures FieldsFromValues(t, vs)
  {
    var h, st := vs[..2], vs[2..11];
    assert Fits(UByte, h[1]) && h[1] == vs[1];
    assert Fits(UByte, st[0]) && st[0] == vs[2];
    assert Fits(SByte, st[2]) && st[2] == vs[4];
    assert Fits(UByte, st[7]) && st[7] == vs[9];
    ParticipantFields(vs, t.participantInfo);
  }

  /** `BuildFields` for the participant blocks, which sit at value 178. */
  lemma ParticipantFields(vs: seq<Value>, infos: seq<ParticipantInfo>)
    requires |vs| == 686 && Conforms(ParticipantsFormat, vs[178..682])
    requires infos == ParticipantsOf(vs[178..682], 56)
    ensures forall i | 0 <= i < 56 ::
      vs[PositionCode(i)] == Int(infos[i].racePositionByte) &&
      vs[SectorCode(i)] == Int(infos[i].sectorByte)
  {
    forall i | 0 <= i < 56
      ensures vs[PositionCode(i)] == Int(infos[i].racePositionByte)
      ensures vs[SectorCode(i)] == Int(infos[i].sectorByte)
    {
      InfoFieldsAt(56, vs[178..682], i);
    }
  }

  /** A one-byte code whose codes in front take `o` bytes is read from
      byte `o`. */
  lemma {:induction false} ByteAt(fmt: seq<Kind>, d: seq<byte>, j: nat, o: nat)
    requires |d| == CalcSize(fmt)
    requires j < |fmt| && CalcSize(fmt[..j]) == o
    requires fmt[j] == UByte || fmt[j] == SByte
    ensures o < |d|
    ensures UnpackAll(fmt, d)[j] == if fmt[j] == UByte then Int(d[o]) else Int(S8(d[o]))
  {
    UnpackAllAt(fmt, d, j);
    assert d[o .. o + 1] == [d[o]];
  }

  /** Where a format keeps the one-byte codes the scans read: the layout's
      codes 1, 2, 4 and 9 at bytes 2, 3, 5 and 10, and codes 4 and 7 of
      each participant block at bytes 8 and 11 of the block. */
  predicate ByteCodes(fmt: seq<Kind>) {
    && |fmt| == 686 && CalcSize(fmt) == 1367
    && fmt[1] == UByte && CalcSize(fmt[..1]) == 2
    && fmt[2] == UByte && CalcSize(fmt[..2]) == 3
    && fmt[4] == SByte && CalcSize(fmt[..4]) == 5
    && fmt[9] == UByte && CalcSize(fmt[..9]) == 10
    && BlockCodes(fmt, 56)
  }

  /** The race-position and sector codes of `n` participant blocks. */
  predicate BlockCodes(fmt: seq<Kind>, n: nat) {
    forall i | 0 <= i < n ::
      && SectorCode(i) < |fmt|
      && fmt[PositionCode(i)] == UByte && CalcSize(fmt[..PositionCode(i)]) == PositionByte(i)
      && fmt[SectorCode(i)] == UByte && CalcSize(fmt[..SectorCode(i)]) == SectorByte(i)
  }

  /** The telemetry layout keeps them there. */
  lemma TelemetryByteCodes()
    ensures ByteCodes(TelemetryFormat)
  {
    TelemetrySize();
    TelemetryValueCount();
    HeadByteCodes();
    TelemetryBlockCodes();
  }

  lemma HeadByteCodes()
    ensures 9 < |TelemetryFormat|
    ensures TelemetryFormat[1] == UByte && CalcSize(TelemetryFormat[..1]) == 2
    ensures TelemetryFormat[2] == UByte && CalcSize(TelemetryFormat[..2]) == 3
    ensures TelemetryFormat[4] == SByte && CalcSize(TelemetryFormat[..4]) == 5
    ensures TelemetryFormat[9] == UByte && CalcSize(TelemetryFormat[..9]) == 10
  {
    HeaderCodeAt();
    assert TelemetryFormat[2] == UByte && CalcSize(TelemetryFormat[..2]) == 3 by {
      StateCodeAt(0);
    }
    assert TelemetryFormat[4] == SByte && CalcSize(TelemetryFormat[..4]) == 5 by {
      StateCodeAt(2);
    }
    assert TelemetryFormat[9] == UByte && CalcSize(TelemetryFormat[..9]) == 10 by {
      StateCodeAt(7);
    }
  }

  lemma TelemetryBlockCodes()
    ensures BlockCodes(TelemetryFormat, 56)
  {
    FrontCodes();
    FrontLength();
    FrontBytes();
    InfoBlockFormat();
    BlockCodesIn(InfoFormat, FrontFormat, ParticipantCount, TrailerFormat);
    assert TelemetryFormat == FrontFormat + (Repeat(InfoFormat, ParticipantCount) + TrailerFormat);
  }

  /** The participant block format: nine codes in 16 bytes, a one-byte
      race position after 8 bytes and a one-byte sector after 11. */
  predicate BlockFormat(fmt: seq<Kind>) {
    && |fmt| == 9 && CalcSize(fmt) == 16
    && fmt[4] == UByte && CalcSize(fmt[..4]) == 8
    && fmt[7] == UByte && CalcSize(fmt[..7]) == 11
  }

  lemma InfoBlockFormat()
    ensures BlockFormat(InfoFormat)
  {
    InfoSize();
    InfoPrefixSizes();
  }

  /** Any layout with 178 codes in 464 bytes in front of its participant
      blocks keeps their codes there. */
  lemma BlockCodesIn(fmt: seq<Kind>, front: seq<Kind>, n: nat, tail: seq<Kind>)
    requires BlockFormat(fmt)
    requires |front| == 178 && CalcSize(front) == 464
    ensures BlockCodes(front + (Repeat(fmt, n) + tail), n)
  {
    forall i | 0 <= i < n
      ensures SectorCode(i) < |front + (Repeat(fmt, n) + tail)|
      ensures (front + (Repeat(fmt, n) + tail))[PositionCode(i)] == UByte
      ensures CalcSize((front + (Repeat(fmt, n) + tail))[..PositionCode(i)]) == PositionByte(i)
      ensures (front + (Repeat(fmt, n) + tail))[SectorCode(i)] == UByte
      ensures CalcSize((front + (Repeat(fmt, n) + tail))[..SectorCode(i)]) == SectorByte(i)
    {
      BlockCodeIn(fmt, front, n, tail, i, 4);
      BlockCodeIn(fmt, front, n, tail, i, 7);
    }
  }

  /** The values those codes unpack to are the bytes at their offsets. */
  lemma {:induction false} UnpackedBytes(fmt: seq<Kind>, d: seq<byte>)
    requires |d| == CalcSize(fmt) && ByteCodes(fmt)
    ensures ValuesFromBytes(UnpackAll(fmt, d), d)
  {
    ByteAt(fmt, d, 1, 2);
    ByteAt(fmt, d, 2, 3);
    ByteAt(fmt, d, 4, 5);
    ByteAt(fmt, d, 9, 10);
    forall i | 0 <= i < 56
      ensures UnpackAll(fmt, d)[PositionCode(i)] == Int(d[PositionByte(i)])
      ensures UnpackAll(fmt, d)[SectorCode(i)] == Int(d[SectorByte(i)])
    {
      ByteAt(fmt, d, PositionCode(i), PositionByte(i));
      ByteAt(fmt, d, SectorCode(i), SectorByte(i));
    }
  }

  /** Values kept from bytes, and fields kept from those values, are fields
      kept from the bytes. */
  lemma FieldsThroughValues(t: TelemetryDataPacket, vs: seq<Value>, d: seq<byte>)
    requires FieldsFromValues(t, vs) && ValuesFromBytes(vs, d)
    ensures FieldsFromBytes(t, d)
  {
    forall i | 0 <= i < 56
      ensures t.participantInfo[i].racePositionByte == d[472 + 16 * i]
      ensures t.participantInfo[i].sectorByte == d[475 + 16 * i]
    {
      assert vs[PositionCode(i)] == Int(d[PositionByte(i)]);
      assert vs[SectorCode(i)] == Int(d[SectorByte(i)]);
    }
  }

  /** A decoded telemetry packet's fields the race scans read are the
      buffer's bytes at their offsets. */
  lemma DecodedFields(hasher: seq<byte> -> int, d: seq<byte>)
    requires |d| == 1367
    ensures Decode(hasher, d).Ok? && FieldsFromBytes(Decode(hasher, d).value, d)
  {
    TelemetrySize();
    var vs := UnpackAll(TelemetryFormat, d);
    assert Unpack(TelemetryFormat, d).value == vs;
    assert Decode(hasher, d).value == Build(hasher(d), vs);
    BuildFields(hasher(d), vs);
    TelemetryByteCodes();
    UnpackedBytes(TelemetryFormat, d);
    FieldsThroughValues(Decode(hasher, d).value, vs, d);
  }

  // ---------------------------------------------------------------------------
  // What the race scans see
  // ---------------------------------------------------------------------------

  /** A scan's view of a telemetry buffer: the packet type is the low two
      bits of byte 2, the game state and session state the low and high
      nibbles of byte 3, the participant count byte 5 read signed, the race
      state the low three bits of byte 10, and participant `i`'s race
      position and sector the low seven bits of byte `472 + 16 i` and the low
      three bits of byte `475 + 16 i`. */
  predicate ViewFromBytes(p: RaceStream.StreamPacket, d: seq<byte>) {
    && p.Telemetry? && |d| == 1367
    && p.packetType == d[2] % 4
    && p.gameState == d[3] % 16 && p.sessionState == d[3] / 16
    && p.numParticipants == S8(d[5])
    && p.raceState == d[10] % 8
    && |p.slots| == 56
    && forall i | 0 <= i < 56 ::
         p.slots[i] == RaceStream.Slot(d[472 + 16 * i] % 128, d[475 + 16 * i] % 8)
  }

  /** The view of a record whose fields are the buffer's bytes. */
  lemma ViewOfFields(t: TelemetryDataPacket, d: seq<byte>)
    requires FieldsFromBytes(t, d)
    ensures ViewFromBytes(RaceStream.TelemetryView(t), d)
  {
    var p := RaceStream.TelemetryView(t);
    assert |p.slots| == 56;
  }

  /** What a scan sees of a decoded 1367-byte buffer, byte by byte. */
  lemma ViewOfBytes(hasher: seq<byte> -> int, d: seq<byte>)
    requires |d| == 1367
    ensures Decode(hasher, d).Ok?
    ensures RaceStream.TelemetryView(Decode(hasher, d).value).hash == hasher(d)
    ensures ViewFromBytes(RaceStream.TelemetryView(Decode(hasher, d).value), d)
  {
    DecodedFields(hasher, d);
    ViewOfFields(Decode(hasher, d).value, d);
  }
}
