/** The base `Packet` class: the common `HB` header (build version number and
    the packed type/count byte), the identity hash, and Python's `==` / `!=`
    between packets.

    `hash(packet_data)` is Python's built-in hash of the raw bytes: a
    function of the bytes alone within one interpreter run, and otherwise
    unknown here, so it is a parameter `hasher`.
 */
module Packet {
  import opened Bytes
  import opened Results
  import opened StructFormat

  /** `"HB"`: with no prefix the base class unpacks in native mode, which for
      these two codes is the same three bytes as the standard little-endian layout. */
  const HeaderFormat: seq<Kind> := [UShort, UByte]

  /** The two values every packet pops first: `build_version_number` and `_packet_type`. */
  datatype Header = Header(buildVersionNumber: u16, rawType: byte)

  /** A decoded base packet: its `_hash` and its header. */
  datatype BasePacket = BasePacket(hash: int, header: Header)

  /** `packet_type`: the low two bits of the type byte. */
  function PacketType(h: Header): (r: nat)
    ensures r < 4 && r == h.rawType % 4
  {
    assert Pow2(2) == 4;
    LowBits(h.rawType, 2);
    Bits(h.rawType, 0, 2)
  }

  /** `count`: the high six bits of the type byte. */
  function Count(h: Header): (r: nat)
    ensures r < 64 && r == h.rawType / 4
  {
    assert Pow2(2) == 4 && Pow2(6) == 64;
    ModOfSmall(h.rawType / 4, 64);
    Bits(h.rawType, 2, 6)
  }

  lemma HeaderFormatSize()
    ensures CalcSize(HeaderFormat) == 3
  {
    assert HeaderFormat[1..][1..] == [];
  }

  /** The values a header packs to. */
  function HeaderValues(h: Header): (vs: seq<Value>)
    ensures Conforms(HeaderFormat, vs)
  {
    [Int(h.buildVersionNumber), Int(h.rawType)]
  }

  /** The header read from the first two unpacked values of any of the layouts. */
  function HeaderOf(vs: seq<Value>): (h: Header)
    requires Conforms(HeaderFormat, vs)
    ensures HeaderValues(h) == vs
  {
    Header(vs[0].n, vs[1].n)
  }

  lemma HeaderOfValues(h: Header)
    ensures HeaderOf(HeaderValues(h)) == h
  {
  }

  /** `Packet.__init__` with the base format: `struct.error` unless the buffer is three bytes. */
  function Decode(hasher: seq<byte> -> int, data: seq<byte>): (r: Result<BasePacket>)
    ensures r.Err? <==> |data| != 3
    ensures r.Err? ==> r.error == StructError
    ensures r.Ok? ==> r.value.hash == hasher(data)
    ensures r.Ok? ==> r.value.header.buildVersionNumber == U16(data[0], data[1])
    ensures r.Ok? ==> r.value.header.rawType == data[2]
  {
    HeaderFormatSize();
    var vs :- Unpack(HeaderFormat, data);
    UnpackAllAt(HeaderFormat, data, 0);
    UnpackAllAt(HeaderFormat, data, 1);
    assert HeaderFormat[..1] == [UShort];
    assert data[..2] == [data[0], data[1]];
    Ok(BasePacket(hasher(data), HeaderOf(vs)))
  }

  /** The header unpacked from three bytes: the little-endian u16, then the type byte. */
  lemma HeaderOfBytes(d: seq<byte>)
    requires |d| == 3
    ensures CalcSize(HeaderFormat) == 3
    ensures HeaderOf(UnpackAll(HeaderFormat, d)) == Header(U16(d[0], d[1]), d[2])
  {
    HeaderFormatSize();
    UnpackAllAt(HeaderFormat, d, 0);
    UnpackAllAt(HeaderFormat, d, 1);
    assert HeaderFormat[..1] == [UShort];
  }

  /** The header bytes as the tests build them: `pack("HB", build, (count << 2) + type)`. */
  function EncodeHeader(buildVersionNumber: nat, packetType: nat, count: nat): (d: seq<byte>)
    requires buildVersionNumber < 65536 && packetType < 4 && count < 64
    ensures |d| == 3
  {
    HeaderFormatSize();
    PackAll(HeaderFormat, HeaderValues(Header(buildVersionNumber, count * 4 + packetType)))
  }

  // ---------------------------------------------------------------------------
  // Header properties
  // ---------------------------------------------------------------------------

  /** The type and count partition the type byte: together they give it back. */
  lemma TypeAndCountRebuildByte(h: Header)
    ensures Count(h) * 4 + PacketType(h) == h.rawType
  {
    assert Pow2(2) == 4 && Pow2(6) == 64;
  }

  /** The type byte `(count << 2) + type` splits back into its two fields. */
  lemma FieldsOfTypeByte(packetType: nat, count: nat)
    requires packetType < 4 && count < 64
    ensures Bits(count * 4 + packetType, 0, 2) == packetType
    ensures Bits(count * 4 + packetType, 2, 6) == count
  {
    assert Pow2(0) == 1 && Pow2(2) == 4 && Pow2(6) == 64;
    DivModUnique(count * 4 + packetType, 4, count, packetType);
  }

  /** A header built from a version, a type and a count decodes to the same three. */
  lemma DecodeEncodeHeader(hasher: seq<byte> -> int, buildVersionNumber: nat, packetType: nat, count: nat)
    requires buildVersionNumber < 65536 && packetType < 4 && count < 64
    ensures Decode(hasher, EncodeHeader(buildVersionNumber, packetType, count)).Ok?
    ensures var h := Decode(hasher, EncodeHeader(buildVersionNumber, packetType, count)).value.header;
      h.buildVersionNumber == buildVersionNumber && PacketType(h) == packetType && Count(h) == count
  {
    var vs := HeaderValues(Header(buildVersionNumber, count * 4 + packetType));
    var d := EncodeHeader(buildVersionNumber, packetType, count);
    HeaderFormatSize();
    UnpackPack(HeaderFormat, vs);
    HeaderOfBytes(d);
    assert Header(U16(d[0], d[1]), d[2]) == Header(buildVersionNumber, count * 4 + packetType);
    FieldsOfTypeByte(packetType, count);
  }

  /** Any three bytes are the encoding of the header they decode to. */
  lemma EncodeDecodeHeader(hasher: seq<byte> -> int, data: seq<byte>)
    requires |data| == 3
    ensures var h := Decode(hasher, data).value.header;
      EncodeHeader(h.buildVersionNumber, PacketType(h), Count(h)) == data
  {
    HeaderFormatSize();
    var h := Decode(hasher, data).value.header;
    TypeAndCountRebuildByte(h);
    var vs := UnpackAll(HeaderFormat, data);
    assert vs == HeaderValues(Header(h.buildVersionNumber, Count(h) * 4 + PacketType(h)));
    PackUnpack(HeaderFormat, data);
  }

  // ---------------------------------------------------------------------------
  // Comparison
  // ---------------------------------------------------------------------------

  /** The class of a packet object; the three layouts are subclasses of the base. */
  datatype Class = BaseClass | TelemetryClass | ParticipantClass | AdditionalClass

  /** `isinstance(x, cls)` for an object of class `c`. */
  predicate IsInstance(c: Class, cls: Class) {
    c == cls || cls == BaseClass
  }

  /** An operand of `==`: a packet (its class and `_hash`) or some other object,
      whose own comparison methods return `NotImplemented`. Object identity is
      structural here: two operands are the same object when they are equal values. */
  datatype Obj = PacketObj(cls: Class, hash: int) | OtherObj(id: nat)

  /** `Packet.__eq__(self, other)`; `None` is `NotImplemented`. */
  function EqMethod(self: Obj, other: Obj): (r: Option<bool>)
    ensures r.Some? <==> self.PacketObj? && other.PacketObj? && IsInstance(other.cls, self.cls)
    ensures r.Some? ==> (r.value <==> self.hash == other.hash)
  {
    if self.PacketObj? && other.PacketObj? && IsInstance(other.cls, self.cls)
    then Some(self.hash == other.hash)
    else None
  }

  /** `Packet.__ne__(self, other)`; `None` is `NotImplemented`. It answers
      exactly when `__eq__` answers, with the opposite truth value. */
  function NeMethod(self: Obj, other: Obj): (r: Option<bool>)
    ensures r == if EqMethod(self, other).Some? then Some(!EqMethod(self, other).value) else None
  {
    if self.PacketObj? && other.PacketObj? && IsInstance(other.cls, self.cls)
    then Some(!(self.hash == other.hash))
    else None
  }

  /** The right operand's class is a proper subclass of the left's, so Python
      tries the right operand's reflected method first. */
  predicate RightFirst(a: Obj, b: Obj) {
    a.PacketObj? && b.PacketObj? && a.cls == BaseClass && b.cls != BaseClass
  }

  /** Python's rich comparison with a method `m` and an identity fallback. */
  function RichCompare(m: (Obj, Obj) -> Option<bool>, a: Obj, b: Obj, fallback: bool): bool {
    var first := if RightFirst(a, b) then m(b, a) else m(a, b);
    if first.Some? then first.value
    else
      var second := if RightFirst(a, b) then m(a, b) else m(b, a);
      if second.Some? then second.value else fallback
  }

  /** `a == b`: two packets one of whose classes is an instance of the
      other's compare hashes; packets of unrelated layouts, and any pair
      involving another object, fall back to identity. */
  function Equals(a: Obj, b: Obj): (r: bool)
    ensures a.PacketObj? && b.PacketObj? && (IsInstance(a.cls, b.cls) || IsInstance(b.cls, a.cls)) ==>
              (r <==> a.hash == b.hash)
    ensures a.PacketObj? && b.PacketObj? && !IsInstance(a.cls, b.cls) && !IsInstance(b.cls, a.cls) ==> !r
    ensures a.OtherObj? || b.OtherObj? ==> (r <==> a == b)
  {
    RichCompare(EqMethod, a, b, a == b)
  }

  /** `a != b`. */
  function NotEquals(a: Obj, b: Obj): (r: bool)
    ensures r == !Equals(a, b)
  {
    RichCompare(NeMethod, a, b, a != b)
  }

  /** When both operands' `__eq__` answer, they give the same answer. */
  lemma EqMethodSymmetric(a: Obj, b: Obj)
    ensures EqMethod(a, b).Some? && EqMethod(b, a).Some? ==> EqMethod(a, b) == EqMethod(b, a)
  {
  }

  /** The object a decoded packet of class `c` is. */
  function AsObj(c: Class, hash: int): Obj {
    PacketObj(c, hash)
  }

  // ---------------------------------------------------------------------------
  // Comparison properties
  // ---------------------------------------------------------------------------

  /** Packets of one class, or a base packet and any packet, are equal exactly
      when their hashes are. */
  lemma EqualsIffSameHash(a: Obj, b: Obj)
    requires a.PacketObj? && b.PacketObj?
    requires a.cls == b.cls || a.cls == BaseClass || b.cls == BaseClass
    ensures Equals(a, b) <==> a.hash == b.hash
  {
  }

  /** Packets of two different layouts are never equal, whatever their hashes. */
  lemma DifferentLayoutsNeverEqual(a: Obj, b: Obj)
    requires a.PacketObj? && b.PacketObj?
    requires a.cls != b.cls && a.cls != BaseClass && b.cls != BaseClass
    ensures !Equals(a, b) && NotEquals(a, b)
  {
  }

  /** A packet never equals an object that is not a packet. */
  lemma PacketNeverEqualsOther(p: Obj, o: Obj)
    requires p.PacketObj? && o.OtherObj?
    ensures !Equals(p, o) && !Equals(o, p)
    ensures NotEquals(p, o) && NotEquals(o, p)
  {
  }

  /** `!=` is always the negation of `==`. */
  lemma NotEqualsIsNegation(a: Obj, b: Obj)
    ensures NotEquals(a, b) == !Equals(a, b)
  {
  }

  /** `==` is symmetric. */
  lemma EqualsSymmetric(a: Obj, b: Obj)
    ensures Equals(a, b) == Equals(b, a)
  {
  }

  /** Equal packets have equal `__hash__`, as a hashable type must. */
  lemma EqualPacketsHashAlike(a: Obj, b: Obj)
    requires a.PacketObj? && b.PacketObj?
    requires Equals(a, b)
    ensures a.hash == b.hash
  {
  }

  /** Two base packets decoded from buffers compare equal exactly when the
      buffers' hashes agree; in particular packets of the same bytes are equal. */
  lemma DecodedPacketsEqual(hasher: seq<byte> -> int, d1: seq<byte>, d2: seq<byte>)
    requires |d1| == 3 && |d2| == 3
    ensures Equals(AsObj(BaseClass, Decode(hasher, d1).value.hash), AsObj(BaseClass, Decode(hasher, d2).value.hash))
        <==> hasher(d1) == hasher(d2)
    ensures d1 == d2 ==> Equals(AsObj(BaseClass, Decode(hasher, d1).value.hash), AsObj(BaseClass, Decode(hasher, d2).value.hash))
  {
    EqualsIffSameHash(AsObj(BaseClass, Decode(hasher, d1).value.hash), AsObj(BaseClass, Decode(hasher, d2).value.hash));
  }
}
