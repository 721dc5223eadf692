/** `ParticipantPacket`: the 1347-byte participant info strings packet, which
    names the car, the class, the track and the first sixteen drivers.

    The format `=HB64s64s64s64s` + `64s` * 16 + `16f` is the header, twenty
    string fields and sixteen floats. Each string field is decoded as strict
    UTF-8 over all 64 bytes and cut at the first NUL.
 */
module Participant {
  import opened Bytes
  import opened Results
  import opened StructFormat
  import Packet
  import Text

  const NameCount: nat := 16

  const ParticipantFormat: seq<Kind> := Packet.HeaderFormat + Rep(Chars64, 20) + Rep(Float, 16)

  datatype ParticipantPacket = ParticipantPacket(
    hash: int,
    header: Packet.Header,
    carName: string,
    carClassName: string,
    trackLocation: string,
    trackVariation: string,
    name: seq<string>,
    fastestLapTime: seq<F32>)

  predicate WellFormed(p: ParticipantPacket) {
    |p.name| == NameCount && |p.fastestLapTime| == NameCount
  }

  /** The twenty texts in the order the packet stores them. */
  function Texts(p: ParticipantPacket): (r: seq<string>)
    ensures |r| == 4 + |p.name|
  {
    [p.carName, p.carClassName, p.trackLocation, p.trackVariation] + p.name
  }

  lemma ParticipantFormatSize()
    ensures CalcSize(ParticipantFormat) == 1347 && |ParticipantFormat| == 38
  {
    Packet.HeaderFormatSize();
    CalcSizeRep(Chars64, 20);
    CalcSizeRep(Float, 16);
    CalcSizeAppend(Packet.HeaderFormat, Rep(Chars64, 20));
    CalcSizeAppend(Packet.HeaderFormat + Rep(Chars64, 20), Rep(Float, 16));
  }

  /** The 64 bytes of string field `i`. */
  function FieldBytes(data: seq<byte>, i: nat): (r: seq<byte>)
    requires |data| == 1347 && i < 20
    ensures |r| == 64
  {
    data[3 + 64 * i .. 3 + 64 * i + 64]
  }

  /** The four bytes of `fastest_lap_time[j]`. */
  function LapTimeBytes(data: seq<byte>, j: nat): (r: F32)
    requires |data| == 1347 && j < 16
  {
    data[1283 + 4 * j .. 1283 + 4 * j + 4]
  }

  /** Value `2 + i` is string field `i`. */
  lemma FieldAt(data: seq<byte>, i: nat)
    requires |data| == 1347 && i < 20
    ensures CalcSize(ParticipantFormat) == |data|
    ensures UnpackAll(ParticipantFormat, data)[2 + i] == Chars(FieldBytes(data, i))
  {
    ParticipantFormatSize();
    Packet.HeaderFormatSize();
    RunSize(Chars64, i, 64);
    UnpackRunAt(Packet.HeaderFormat, Chars64, 20, Rep(Float, 16), data, i, 3 + 64 * i);
  }

  /** The header and the string fields take 22 values and 1283 bytes. */
  lemma StringsEnd()
    ensures |Packet.HeaderFormat + Rep(Chars64, 20)| == 22
    ensures CalcSize(Packet.HeaderFormat + Rep(Chars64, 20)) == 1283
  {
    Packet.HeaderFormatSize();
    CalcSizeRep(Chars64, 20);
    CalcSizeAppend(Packet.HeaderFormat, Rep(Chars64, 20));
  }

  /** Value `22 + j` is lap time `j`. */
  lemma LapTimeAt(data: seq<byte>, j: nat)
    requires |data| == 1347 && j < 16
    ensures CalcSize(ParticipantFormat) == |data|
    ensures UnpackAll(ParticipantFormat, data)[22 + j] == Word(LapTimeBytes(data, j))
  {
    ParticipantFormatSize();
    var pre := Packet.HeaderFormat + Rep(Chars64, 20);
    StringsEnd();
    RunSize(Float, j, 4);
    UnpackLastRunAt(pre, Float, 16, data, j, 1283 + 4 * j);
  }

  /** The first two values are the header's. */
  lemma HeaderAt(data: seq<byte>)
    requires |data| == 1347
    ensures CalcSize(ParticipantFormat) == |data|
    ensures UnpackAll(ParticipantFormat, data)[..2] == UnpackAll(Packet.HeaderFormat, data[..3])
  {
    ParticipantFormatSize();
    Packet.HeaderFormatSize();
    var rest := Rep(Chars64, 20) + Rep(Float, 16);
    assert ParticipantFormat == Packet.HeaderFormat + rest;
    UnpackPrefix(Packet.HeaderFormat, rest, data);
  }

  /** Where each unpacked value comes from in the buffer. */
  lemma ValuesAt(data: seq<byte>)
    requires |data| == 1347
    ensures CalcSize(ParticipantFormat) == |data|
    ensures UnpackAll(ParticipantFormat, data)[..2] == UnpackAll(Packet.HeaderFormat, data[..3])
    ensures forall i | 0 <= i < 20 :: UnpackAll(ParticipantFormat, data)[2 + i] == Chars(FieldBytes(data, i))
    ensures forall j | 0 <= j < 16 :: UnpackAll(ParticipantFormat, data)[22 + j] == Word(LapTimeBytes(data, j))
  {
    HeaderAt(data);
    forall i | 0 <= i < 20 ensures UnpackAll(ParticipantFormat, data)[2 + i] == Chars(FieldBytes(data, i)) {
      FieldAt(data, i);
    }
    forall j | 0 <= j < 16 ensures UnpackAll(ParticipantFormat, data)[22 + j] == Word(LapTimeBytes(data, j)) {
      LapTimeAt(data, j);
    }
  }

  /** The twenty string fields in packet order. */
  function Fields(data: seq<byte>): (fs: seq<seq<byte>>)
    requires |data| == 1347
    ensures |fs| == 20 && forall i | 0 <= i < 20 :: fs[i] == FieldBytes(data, i)
  {
    seq(20, i requires 0 <= i < 20 => FieldBytes(data, i))
  }

  /** The unpacked `64s` values are the string fields. */
  lemma FieldValues(data: seq<byte>)
    requires |data| == 1347
    ensures CalcSize(ParticipantFormat) == |data|
    ensures Conforms(Rep(Chars64, 20), UnpackAll(ParticipantFormat, data)[2..22])
    ensures CharsList(UnpackAll(ParticipantFormat, data)[2..22]) == Fields(data)
  {
    ValuesAt(data);
    var vs := UnpackAll(ParticipantFormat, data);
    UnpackAllConforms(ParticipantFormat, data);
    var c, f := Rep(Chars64, 20), Rep(Float, 16);
    assert ParticipantFormat == Packet.HeaderFormat + (c + f);
    assert vs[0..] == vs;
    ConformsAt(Packet.HeaderFormat, c + f, vs, 0);
    ConformsAt(c, f, vs, 2);
    var cs := CharsList(vs[2..22]);
    forall i | 0 <= i < 20 ensures cs[i] == Fields(data)[i] {
      assert vs[2..22][i] == vs[2 + i];
    }
  }

  /** The record built from the unpacked values and the decoded texts. */
  function Assemble(hash: int, vs: seq<Value>, texts: seq<string>): (p: ParticipantPacket)
    requires Conforms(ParticipantFormat, vs) && |texts| == 20
    ensures WellFormed(p) && Texts(p) == texts && p.hash == hash
  {
    ConformsAt(Packet.HeaderFormat, Rep(Chars64, 20) + Rep(Float, 16), vs, 0);
    assert vs[0..2] == vs[..2];
    assert ParticipantFormat == (Packet.HeaderFormat + Rep(Chars64, 20)) + Rep(Float, 16);
    ConformsAt(Packet.HeaderFormat + Rep(Chars64, 20), Rep(Float, 16), vs, 0);
    assert vs[0 + 22..] == vs[22..];
    var p := ParticipantPacket(hash, Packet.HeaderOf(vs[..2]), texts[0], texts[1], texts[2], texts[3],
                               texts[4..], F32List(vs[22..]));
    assert Texts(p) == texts;
    p
  }

  /** `ParticipantPacket.__init__`: `struct.error` unless the buffer is 1347
      bytes; `UnicodeDecodeError` when any of the twenty string fields is not
      well-formed UTF-8; otherwise the texts before each field's first NUL and
      the sixteen lap-time floats. */
  function Decode(hasher: seq<byte> -> int, data: seq<byte>): (r: Result<ParticipantPacket>)
    ensures |data| != 1347 ==> r == Err(StructError)
    ensures |data| == 1347 ==> (r.Ok? <==> forall i | 0 <= i < 20 :: Text.DecodeField(FieldBytes(data, i)).Ok?)
    ensures |data| == 1347 && r.Err? ==> r.error == UnicodeDecodeError
    ensures r.Ok? ==> r.value.hash == hasher(data) && WellFormed(r.value)
    ensures r.Ok? ==> r.value.header.buildVersionNumber == U16(data[0], data[1]) && r.value.header.rawType == data[2]
    ensures r.Ok? ==> forall i | 0 <= i < 20 :: Text.DecodeField(FieldBytes(data, i)) == Ok(Texts(r.value)[i])
    ensures r.Ok? ==> forall j | 0 <= j < 16 :: r.value.fastestLapTime[j] == LapTimeBytes(data, j)
  {
    ParticipantFormatSize();
    var vs :- Unpack(ParticipantFormat, data);
    FieldValues(data);
    var texts :- Text.DecodeFields(CharsList(vs[2..22]));
    var p := Assemble(hasher(data), vs, texts);
    DecodedParts(data, p);
    Ok(p)
  }

  /** What `Assemble` takes from the buffer: the header and the lap times. */
  lemma DecodedParts(data: seq<byte>, p: ParticipantPacket)
    requires |data| == 1347
    requires CalcSize(ParticipantFormat) == |data|
    requires Conforms(ParticipantFormat, UnpackAll(ParticipantFormat, data))
    requires p.header == Packet.HeaderOf(UnpackAll(ParticipantFormat, data)[..2])
    requires p.fastestLapTime == F32List(UnpackAll(ParticipantFormat, data)[22..])
    ensures p.header.buildVersionNumber == U16(data[0], data[1]) && p.header.rawType == data[2]
    ensures |p.fastestLapTime| == 16
    ensures forall j | 0 <= j < 16 :: p.fastestLapTime[j] == LapTimeBytes(data, j)
  {
    ValuesAt(data);
    Packet.HeaderOfBytes(data[..3]);
    var vs := UnpackAll(ParticipantFormat, data);
    forall j | 0 <= j < 16 ensures p.fastestLapTime[j] == LapTimeBytes(data, j) {
      assert vs[22..][j] == vs[22 + j];
    }
  }

  /** The values a packet packs to: each text padded with NULs to 64 bytes. */
  function ParticipantValues(p: ParticipantPacket): (vs: seq<Value>)
    requires WellFormed(p)
    ensures Conforms(ParticipantFormat, vs)
  {
    var vs := Packet.HeaderValues(p.header) + CharsValues(Text.EncodeFields(Texts(p))) + Words(p.fastestLapTime);
    ConformsConcat(Packet.HeaderFormat, Rep(Chars64, 20), Packet.HeaderValues(p.header), CharsValues(Text.EncodeFields(Texts(p))));
    CharsListRoundTrip(Text.EncodeFields(Texts(p)));
    F32ListRoundTrip(p.fastestLapTime);
    ConformsConcat(Packet.HeaderFormat + Rep(Chars64, 20), Rep(Float, 16),
                   Packet.HeaderValues(p.header) + CharsValues(Text.EncodeFields(Texts(p))), Words(p.fastestLapTime));
    vs
  }

  /** `struct.pack` of a packet's fields, as the tests build a buffer. */
  function Encode(p: ParticipantPacket): (d: seq<byte>)
    requires WellFormed(p)
    ensures |d| == 1347
  {
    ParticipantFormatSize();
    PackAll(ParticipantFormat, ParticipantValues(p))
  }

  /** A packet whose texts fit their fields is decoded back from its encoding,
      with the hash of the encoded bytes. */
  lemma DecodeEncode(hasher: seq<byte> -> int, p: ParticipantPacket)
    requires WellFormed(p)
    requires forall i | 0 <= i < 20 :: Text.FitsField(Texts(p)[i])
    ensures Decode(hasher, Encode(p)) == Ok(p.(hash := hasher(Encode(p))))
  {
    var d := Encode(p);
    var vs := ParticipantValues(p);
    var fs := Text.EncodeFields(Texts(p));
    ParticipantFormatSize();
    UnpackPack(ParticipantFormat, vs);
    assert vs[..2] == Packet.HeaderValues(p.header);
    assert vs[2..22] == CharsValues(fs);
    assert vs[22..] == Words(p.fastestLapTime);
    CharsListRoundTrip(fs);
    F32ListRoundTrip(p.fastestLapTime);
    Text.DecodeEncodeFields(Texts(p));
    Packet.HeaderOfValues(p.header);
    assert Texts(p)[4..] == p.name;
  }
}
