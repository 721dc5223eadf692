/** `AdditionalParticipantPacket`: the 1028-byte additional participant info
    strings packet, sent when a race has more than sixteen drivers; it names
    sixteen further drivers starting at `offset`.

    The format `=HBB` + `64s` * 16 is the header, the offset byte and sixteen
    string fields, each decoded as strict UTF-8 over all 64 bytes and cut at
    the first NUL.
 */
module AdditionalParticipant {
  import opened Bytes
  import opened Results
  import opened StructFormat
  import Packet
  import Text

  const NameCount: nat := 16

  /** The layout's type in the header, as the game sends it. */
  const AdditionalParticipantType: nat := 2

  const OffsetFormat: seq<Kind> := Packet.HeaderFormat + [UByte]

  const AdditionalFormat: seq<Kind> := OffsetFormat + Rep(Chars64, NameCount)

  datatype AdditionalParticipantPacket = AdditionalParticipantPacket(
    hash: int,
    header: Packet.Header,
    offset: byte,
    name: seq<string>)

  predicate WellFormed(p: AdditionalParticipantPacket) {
    |p.name| == NameCount
  }

  lemma OffsetFormatSize()
    ensures |OffsetFormat| == 3 && CalcSize(OffsetFormat) == 4
  {
    Packet.HeaderFormatSize();
    CalcSizeAppend(Packet.HeaderFormat, [UByte]);
  }

  lemma AdditionalFormatSize()
    ensures CalcSize(AdditionalFormat) == 1028 && |AdditionalFormat| == 19
  {
    OffsetFormatSize();
    CalcSizeRep(Chars64, NameCount);
    CalcSizeAppend(OffsetFormat, Rep(Chars64, NameCount));
  }

  /** The 64 bytes of `name[i]`. */
  function NameBytes(data: seq<byte>, i: nat): (r: seq<byte>)
    requires |data| == 1028 && i < NameCount
    ensures |r| == 64
  {
    data[4 + 64 * i .. 4 + 64 * i + 64]
  }

  /** The sixteen name fields in packet order. */
  function Fields(data: seq<byte>): (fs: seq<seq<byte>>)
    requires |data| == 1028
    ensures |fs| == NameCount && forall i | 0 <= i < NameCount :: fs[i] == NameBytes(data, i)
  {
    seq(NameCount, i requires 0 <= i < NameCount => NameBytes(data, i))
  }

  /** Value `3 + i` is name field `i`. */
  lemma NameAt(data: seq<byte>, i: nat)
    requires |data| == 1028 && i < NameCount
    ensures CalcSize(AdditionalFormat) == |data|
    ensures UnpackAll(AdditionalFormat, data)[3 + i] == Chars(NameBytes(data, i))
  {
    AdditionalFormatSize();
    OffsetFormatSize();
    RunSize(Chars64, i, 64);
    UnpackLastRunAt(OffsetFormat, Chars64, NameCount, data, i, 4 + 64 * i);
  }

  /** Value 2 is the offset byte. */
  lemma OffsetAt(data: seq<byte>)
    requires |data| == 1028
    ensures CalcSize(AdditionalFormat) == |data|
    ensures UnpackAll(AdditionalFormat, data)[2] == Int(data[3])
  {
    AdditionalFormatSize();
    Packet.HeaderFormatSize();
    assert AdditionalFormat[..2] == Packet.HeaderFormat && AdditionalFormat[2] == UByte;
    UnpackAllAt(AdditionalFormat, data, 2);
  }

  /** The first two values are the header's. */
  lemma HeaderAt(data: seq<byte>)
    requires |data| == 1028
    ensures CalcSize(AdditionalFormat) == |data|
    ensures UnpackAll(AdditionalFormat, data)[..2] == UnpackAll(Packet.HeaderFormat, data[..3])
  {
    AdditionalFormatSize();
    Packet.HeaderFormatSize();
    var rest := [UByte] + Rep(Chars64, NameCount);
    assert AdditionalFormat == Packet.HeaderFormat + rest;
    UnpackPrefix(Packet.HeaderFormat, rest, data);
  }

  /** The unpacked `64s` values are the name fields. */
  lemma FieldValues(data: seq<byte>)
    requires |data| == 1028
    ensures CalcSize(AdditionalFormat) == |data|
    ensures Conforms(Rep(Chars64, NameCount), UnpackAll(AdditionalFormat, data)[3..])
    ensures CharsList(UnpackAll(AdditionalFormat, data)[3..]) == Fields(data)
  {
    AdditionalFormatSize();
    OffsetFormatSize();
    var vs := UnpackAll(AdditionalFormat, data);
    UnpackAllConforms(AdditionalFormat, data);
    assert vs[0..] == vs;
    ConformsAt(OffsetFormat, Rep(Chars64, NameCount), vs, 0);
    var cs := CharsList(vs[3..]);
    forall i | 0 <= i < NameCount ensures cs[i] == Fields(data)[i] {
      NameAt(data, i);
      assert vs[3..][i] == vs[3 + i];
    }
  }

  /** `AdditionalParticipantPacket.__init__`: `struct.error` unless the buffer
      is 1028 bytes; `UnicodeDecodeError` when any name field is not
      well-formed UTF-8; otherwise the offset and the sixteen names, each the
      text before its field's first NUL. */
  function Decode(hasher: seq<byte> -> int, data: seq<byte>): (r: Result<AdditionalParticipantPacket>)
    ensures |data| != 1028 ==> r == Err(StructError)
    ensures |data| == 1028 ==> (r.Ok? <==> forall i | 0 <= i < NameCount :: Text.DecodeField(NameBytes(data, i)).Ok?)
    ensures |data| == 1028 && r.Err? ==> r.error == UnicodeDecodeError
    ensures r.Ok? ==> r.value.hash == hasher(data) && WellFormed(r.value)
    ensures r.Ok? ==> r.value.header.buildVersionNumber == U16(data[0], data[1]) && r.value.header.rawType == data[2]
    ensures r.Ok? ==> r.value.offset == data[3]
    ensures r.Ok? ==> forall i | 0 <= i < NameCount :: Text.DecodeField(NameBytes(data, i)) == Ok(r.value.name[i])
  {
    AdditionalFormatSize();
    var vs :- Unpack(AdditionalFormat, data);
    FieldValues(data);
    var names :- Text.DecodeFields(CharsList(vs[3..]));
    var p := Assemble(hasher(data), vs, names);
    DecodedParts(data, p);
    Ok(p)
  }

  /** The record built from the unpacked values and the decoded names. */
  function Assemble(hash: int, vs: seq<Value>, names: seq<string>): (p: AdditionalParticipantPacket)
    requires Conforms(AdditionalFormat, vs) && |names| == NameCount
    ensures WellFormed(p) && p.name == names && p.hash == hash
  {
    assert vs[0..] == vs;
    ConformsAt(OffsetFormat, Rep(Chars64, NameCount), vs, 0);
    ConformsAt(Packet.HeaderFormat, [UByte], vs[0..3], 0);
    assert vs[0..3][0..2] == vs[..2] && vs[0..3][2..] == [vs[2]];
    AdditionalParticipantPacket(hash, Packet.HeaderOf(vs[..2]), vs[2].n, names)
  }

  /** What `Assemble` takes from the buffer: the header and the offset. */
  lemma DecodedParts(data: seq<byte>, p: AdditionalParticipantPacket)
    requires |data| == 1028
    requires CalcSize(AdditionalFormat) == |data|
    requires Conforms(AdditionalFormat, UnpackAll(AdditionalFormat, data))
    requires p.header == Packet.HeaderOf(UnpackAll(AdditionalFormat, data)[..2])
    requires p.offset == UnpackAll(AdditionalFormat, data)[2].n
    ensures p.header.buildVersionNumber == U16(data[0], data[1]) && p.header.rawType == data[2]
    ensures p.offset == data[3]
  {
    HeaderAt(data);
    OffsetAt(data);
    Packet.HeaderOfBytes(data[..3]);
  }

  /** The values a packet packs to: each name padded with NULs to 64 bytes. */
  function AdditionalValues(p: AdditionalParticipantPacket): (vs: seq<Value>)
    requires WellFormed(p)
    ensures Conforms(AdditionalFormat, vs)
  {
    var head := Packet.HeaderValues(p.header) + [Int(p.offset)];
    var names := CharsValues(Text.EncodeFields(p.name));
    ConformsConcat(Packet.HeaderFormat, [UByte], Packet.HeaderValues(p.header), [Int(p.offset)]);
    CharsListRoundTrip(Text.EncodeFields(p.name));
    ConformsConcat(OffsetFormat, Rep(Chars64, NameCount), head, names);
    head + names
  }

  /** `struct.pack` of a packet's fields, as the tests build a buffer. */
  function Encode(p: AdditionalParticipantPacket): (d: seq<byte>)
    requires WellFormed(p)
    ensures |d| == 1028
  {
    AdditionalFormatSize();
    PackAll(AdditionalFormat, AdditionalValues(p))
  }

  /** A packet whose names fit their fields is decoded back from its encoding,
      with the hash of the encoded bytes. */
  lemma DecodeEncode(hasher: seq<byte> -> int, p: AdditionalParticipantPacket)
    requires WellFormed(p)
    requires forall i | 0 <= i < NameCount :: Text.FitsField(p.name[i])
    ensures Decode(hasher, Encode(p)) == Ok(p.(hash := hasher(Encode(p))))
  {
    var vs := AdditionalValues(p);
    var fs := Text.EncodeFields(p.name);
    AdditionalFormatSize();
    UnpackPack(AdditionalFormat, vs);
    assert vs[..2] == Packet.HeaderValues(p.header);
    assert vs[3..] == CharsValues(fs);
    CharsListRoundTrip(fs);
    Text.DecodeEncodeFields(p.name);
    Packet.HeaderOfValues(p.header);
  }

  /** A packet built as the tests build one, with `(count << 2) + 2` in the
      type byte, decodes to `packet_type == 2` and the same count. */
  lemma EncodedTypeAndCount(hasher: seq<byte> -> int, p: AdditionalParticipantPacket, count: nat)
    requires WellFormed(p) && forall i | 0 <= i < NameCount :: Text.FitsField(p.name[i])
    requires count < 64 && p.header.rawType == count * 4 + AdditionalParticipantType
    ensures Decode(hasher, Encode(p)).Ok?
    ensures Packet.PacketType(Decode(hasher, Encode(p)).value.header) == AdditionalParticipantType
    ensures Packet.Count(Decode(hasher, Encode(p)).value.header) == count
  {
    DecodeEncode(hasher, p);
    Packet.FieldsOfTypeByte(AdditionalParticipantType, count);
  }
}
