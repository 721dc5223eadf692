/** The byte layout of `TelemetryDataPacket`.

    The source builds its format string by appending one piece per group of
    fields; here each piece is a segment, and the whole format is the header
    followed by the segments in the same order. Appending is associative, so
    the format is written as each segment followed by everything after it
    (`FromState` is the state segment and all that follows), which is the
    order the values are popped in.
 */
module TelemetryLayout {
  import opened StructFormat
  import Packet

  // ---------------------------------------------------------------------------
  // Segments
  // ---------------------------------------------------------------------------

  /** `"B"`, `"bb"`, `"BBbBB"`, `"B"`: game/session state to laps in event. */
  const StateFormat: seq<Kind> := [UByte, SByte, SByte, UByte, UByte, SByte, UByte, UByte, UByte]

  /** `"21f"`: the lap and sector times. */
  const TimingsFormat: seq<Kind> := Rep(Float, 21)

  /** `"H"`, `"B"`, `"B"`: joypad word, highest flag, pit mode/schedule. */
  const ControlsFormat: seq<Kind> := [UShort, UByte, UByte]

  /** `"hHhHHBBBBBbffHHBBbB"`: the car state. */
  const CarFormat: seq<Kind> := [
    SShort, UShort, SShort, UShort, UShort, UByte, UByte, UByte, UByte, UByte,
    SByte, Float, Float, UShort, UShort, UByte, UByte, SByte, UByte]

  /** `"22f"`: odometer and seven 3-vectors. */
  const MotionFormat: seq<Kind> := Rep(Float, 22)

  /** `"8B12f8B8f12B4h20H16f4H"`: the per-tyre lists, four values each. */
  const WheelsFormat: seq<Kind> :=
    Rep(UByte, 8) + (Rep(Float, 12) + (Rep(UByte, 8) + (Rep(Float, 8) + (Rep(UByte, 12)
    + (Rep(SShort, 4) + (Rep(UShort, 20) + (Rep(Float, 16) + Rep(UShort, 4))))))))

  /** `"2f"`, `"2B"`, `"bbBbbb"`: engine, damage and weather. */
  const EnvironmentFormat: seq<Kind> := [Float, Float, UByte, UByte, SByte, SByte, UByte, SByte, SByte, SByte]

  /** `"hhhHBBBBf"`: one participant block. */
  const InfoFormat: seq<Kind> := [SShort, SShort, SShort, UShort, UByte, UByte, UByte, UByte, Float]

  const ParticipantCount: nat := 56

  /** `"hhhHBBBBf" * 56`. */
  const ParticipantsFormat: seq<Kind> := Repeat(InfoFormat, ParticipantCount)

  /** `"fBBB"`: track length, wings, d-pad. */
  const TrailerFormat: seq<Kind> := [Float, UByte, UByte, UByte]

  const FromParticipants: seq<Kind> := ParticipantsFormat + TrailerFormat
  const FromEnvironment: seq<Kind> := EnvironmentFormat + FromParticipants
  const FromWheels: seq<Kind> := WheelsFormat + FromEnvironment
  const FromMotion: seq<Kind> := MotionFormat + FromWheels
  const FromCar: seq<Kind> := CarFormat + FromMotion
  const FromControls: seq<Kind> := ControlsFormat + FromCar
  const FromTimings: seq<Kind> := TimingsFormat + FromControls
  const FromState: seq<Kind> := StateFormat + FromTimings

  /** The whole `_packet_string`. */
  const TelemetryFormat: seq<Kind> := Packet.HeaderFormat + FromState

  // ---------------------------------------------------------------------------
  // Sizes
  // ---------------------------------------------------------------------------

  lemma StateSize()
    ensures CalcSize(StateFormat) == 9
  {
    StateSizeBack();
    SizeBackIsCalcSize(StateFormat);
  }

  lemma StateSizeBack()
    ensures SizeBack(StateFormat) == 9
  {
    assert SizeBack(StateFormat[..1]) == 1;
    assert StateFormat[..2][..1] == StateFormat[..1];
    assert SizeBack(StateFormat[..2]) == 2;
    assert StateFormat[..3][..2] == StateFormat[..2];
    assert SizeBack(StateFormat[..3]) == 3;
    assert StateFormat[..4][..3] == StateFormat[..3];
    assert SizeBack(StateFormat[..4]) == 4;
    assert StateFormat[..5][..4] == StateFormat[..4];
    assert SizeBack(StateFormat[..5]) == 5;
    assert StateFormat[..6][..5] == StateFormat[..5];
    assert SizeBack(StateFormat[..6]) == 6;
    assert StateFormat[..7][..6] == StateFormat[..6];
    assert SizeBack(StateFormat[..7]) == 7;
    assert StateFormat[..8][..7] == StateFormat[..7];
    assert SizeBack(StateFormat[..8]) == 8;
    assert StateFormat[..9][..8] == StateFormat[..8];
    assert SizeBack(StateFormat[..9]) == 9;
    assert StateFormat[..9] == StateFormat;
  }

  lemma ControlsSize()
    ensures CalcSize(ControlsFormat) == 4
  {
    ControlsSizeBack();
    SizeBackIsCalcSize(ControlsFormat);
  }

  lemma ControlsSizeBack()
    ensures SizeBack(ControlsFormat) == 4
  {
    assert SizeBack(ControlsFormat[..1]) == 2;
    assert ControlsFormat[..2][..1] == ControlsFormat[..1];
    assert SizeBack(ControlsFormat[..2]) == 3;
    assert ControlsFormat[..3][..2] == ControlsFormat[..2];
    assert SizeBack(ControlsFormat[..3]) == 4;
    assert ControlsFormat[..3] == ControlsFormat;
  }

  lemma CarSize()
    ensures CalcSize(CarFormat) == 32
  {
    CarSizeBack();
    SizeBackIsCalcSize(CarFormat);
  }

  lemma CarSizeBack()
    ensures SizeBack(CarFormat) == 32
  {
    assert SizeBack(CarFormat[..1]) == 2;
    assert CarFormat[..2][..1] == CarFormat[..1];
    assert SizeBack(CarFormat[..2]) == 4;
    assert CarFormat[..3][..2] == CarFormat[..2];
    assert SizeBack(CarFormat[..3]) == 6;
    assert CarFormat[..4][..3] == CarFormat[..3];
    assert SizeBack(CarFormat[..4]) == 8;
    assert CarFormat[..5][..4] == CarFormat[..4];
    assert SizeBack(CarFormat[..5]) == 10;
    assert CarFormat[..6][..5] == CarFormat[..5];
    assert SizeBack(CarFormat[..6]) == 11;
    assert CarFormat[..7][..6] == CarFormat[..6];
    assert SizeBack(CarFormat[..7]) == 12;
    assert CarFormat[..8][..7] == CarFormat[..7];
    assert SizeBack(CarFormat[..8]) == 13;
    assert CarFormat[..9][..8] == CarFormat[..8];
    assert SizeBack(CarFormat[..9]) == 14;
    assert CarFormat[..10][..9] == CarFormat[..9];
    assert SizeBack(CarFormat[..10]) == 15;
    assert CarFormat[..11][..10] == CarFormat[..10];
    assert SizeBack(CarFormat[..11]) == 16;
    assert CarFormat[..12][..11] == CarFormat[..11];
    assert SizeBack(CarFormat[..12]) == 20;
    assert CarFormat[..13][..12] == CarFormat[..12];
    assert SizeBack(CarFormat[..13]) == 24;
    assert CarFormat[..14][..13] == CarFormat[..13];
    assert SizeBack(CarFormat[..14]) == 26;
    assert CarFormat[..15][..14] == CarFormat[..14];
    assert SizeBack(CarFormat[..15]) == 28;
    assert CarFormat[..16][..15] == CarFormat[..15];
    assert SizeBack(CarFormat[..16]) == 29;
    assert CarFormat[..17][..16] == CarFormat[..16];
    assert SizeBack(CarFormat[..17]) == 30;
    assert CarFormat[..18][..17] == CarFormat[..17];
    assert SizeBack(CarFormat[..18]) == 31;
    assert CarFormat[..19][..18] == CarFormat[..18];
    assert SizeBack(CarFormat[..19]) == 32;
    assert CarFormat[..19] == CarFormat;
  }

  lemma EnvironmentSize()
    ensures CalcSize(EnvironmentFormat) == 16
  {
    EnvironmentSizeBack();
    SizeBackIsCalcSize(EnvironmentFormat);
  }

  lemma EnvironmentSizeBack()
    ensures SizeBack(EnvironmentFormat) == 16
  {
    assert SizeBack(EnvironmentFormat[..1]) == 4;
    assert EnvironmentFormat[..2][..1] == EnvironmentFormat[..1];
    assert SizeBack(EnvironmentFormat[..2]) == 8;
    assert EnvironmentFormat[..3][..2] == EnvironmentFormat[..2];
    assert SizeBack(EnvironmentFormat[..3]) == 9;
    assert EnvironmentFormat[..4][..3] == EnvironmentFormat[..3];
    assert SizeBack(EnvironmentFormat[..4]) == 10;
    assert EnvironmentFormat[..5][..4] == EnvironmentFormat[..4];
    assert SizeBack(EnvironmentFormat[..5]) == 11;
    assert EnvironmentFormat[..6][..5] == EnvironmentFormat[..5];
    assert SizeBack(EnvironmentFormat[..6]) == 12;
    assert EnvironmentFormat[..7][..6] == EnvironmentFormat[..6];
    assert SizeBack(EnvironmentFormat[..7]) == 13;
    assert EnvironmentFormat[..8][..7] == EnvironmentFormat[..7];
    assert SizeBack(EnvironmentFormat[..8]) == 14;
    assert EnvironmentFormat[..9][..8] == EnvironmentFormat[..8];
    assert SizeBack(EnvironmentFormat[..9]) == 15;
    assert EnvironmentFormat[..10][..9] == EnvironmentFormat[..9];
    assert SizeBack(EnvironmentFormat[..10]) == 16;
    assert EnvironmentFormat[..10] == EnvironmentFormat;
  }

  lemma TrailerSize()
    ensures CalcSize(TrailerFormat) == 7
  {
    TrailerSizeBack();
    SizeBackIsCalcSize(TrailerFormat);
  }

  lemma TrailerSizeBack()
    ensures SizeBack(TrailerFormat) == 7
  {
    assert SizeBack(TrailerFormat[..1]) == 4;
    assert TrailerFormat[..2][..1] == TrailerFormat[..1];
    assert SizeBack(TrailerFormat[..2]) == 5;
    assert TrailerFormat[..3][..2] == TrailerFormat[..2];
    assert SizeBack(TrailerFormat[..3]) == 6;
    assert TrailerFormat[..4][..3] == TrailerFormat[..3];
    assert SizeBack(TrailerFormat[..4]) == 7;
    assert TrailerFormat[..4] == TrailerFormat;
  }

  /** A participant block is nine values in sixteen bytes. */
  lemma InfoSize()
    ensures |InfoFormat| == 9 && CalcSize(InfoFormat) == 16
  {
    InfoSizeBack();
    SizeBackIsCalcSize(InfoFormat);
  }

  lemma InfoSizeBack()
    ensures SizeBack(InfoFormat) == 16
  {
    assert SizeBack(InfoFormat[..1]) == 2;
    assert InfoFormat[..2][..1] == InfoFormat[..1];
    assert SizeBack(InfoFormat[..2]) == 4;
    assert InfoFormat[..3][..2] == InfoFormat[..2];
    assert SizeBack(InfoFormat[..3]) == 6;
    assert InfoFormat[..4][..3] == InfoFormat[..3];
    assert SizeBack(InfoFormat[..4]) == 8;
    assert InfoFormat[..5][..4] == InfoFormat[..4];
    assert SizeBack(InfoFormat[..5]) == 9;
    assert InfoFormat[..6][..5] == InfoFormat[..5];
    assert SizeBack(InfoFormat[..6]) == 10;
    assert InfoFormat[..7][..6] == InfoFormat[..6];
    assert SizeBack(InfoFormat[..7]) == 11;
    assert InfoFormat[..8][..7] == InfoFormat[..7];
    assert SizeBack(InfoFormat[..8]) == 12;
    assert InfoFormat[..9][..8] == InfoFormat[..8];
    assert SizeBack(InfoFormat[..9]) == 16;
    assert InfoFormat[..9] == InfoFormat;
  }

  lemma WheelsSize()
    ensures CalcSize(WheelsFormat) == 228 && |WheelsFormat| == 92
  {
    var f8 := Rep(Float, 16) + Rep(UShort, 4);
    var f7 := Rep(UShort, 20) + f8;
    var f6 := Rep(SShort, 4) + f7;
    var f5 := Rep(UByte, 12) + f6;
    var f4 := Rep(Float, 8) + f5;
    var f3 := Rep(UByte, 8) + f4;
    var f2 := Rep(Float, 12) + f3;
    CalcSizeRep(UShort, 4);
    CalcSizeRepAppend(Float, 16, Rep(UShort, 4));
    CalcSizeRepAppend(UShort, 20, f8);
    CalcSizeRepAppend(SShort, 4, f7);
    CalcSizeRepAppend(UByte, 12, f6);
    CalcSizeRepAppend(Float, 8, f5);
    CalcSizeRepAppend(UByte, 8, f4);
    CalcSizeRepAppend(Float, 12, f3);
    CalcSizeRepAppend(UByte, 8, f2);
  }

  lemma ParticipantsSize()
    ensures CalcSize(ParticipantsFormat) == 896
  {
    InfoSize();
    CalcSizeRepeat(InfoFormat, ParticipantCount);
  }

  lemma TimingsSize()
    ensures CalcSize(TimingsFormat) == 84
  {
    CalcSizeRep(Float, 21);
  }

  lemma MotionSize()
    ensures CalcSize(MotionFormat) == 88
  {
    CalcSizeRep(Float, 22);
  }

  /** The whole layout is 1367 bytes: `struct.calcsize` of the format string. */
  lemma TelemetrySize()
    ensures CalcSize(TelemetryFormat) == 1367
  {
    StateSize();
    TimingsSize();
    ControlsSize();
    CarSize();
    MotionSize();
    WheelsSize();
    EnvironmentSize();
    ParticipantsSize();
    TrailerSize();
    Packet.HeaderFormatSize();
    CalcSizeAppend(ParticipantsFormat, TrailerFormat);
    CalcSizeAppend(EnvironmentFormat, FromParticipants);
    CalcSizeAppend(WheelsFormat, FromEnvironment);
    CalcSizeAppend(MotionFormat, FromWheels);
    CalcSizeAppend(CarFormat, FromMotion);
    CalcSizeAppend(ControlsFormat, FromCar);
    CalcSizeAppend(TimingsFormat, FromControls);
    CalcSizeAppend(StateFormat, FromTimings);
    CalcSizeAppend(Packet.HeaderFormat, FromState);
  }

  /** The format holds 686 values: 178 before the participant blocks, 9 in each of 56, and 4 after. */
  lemma TelemetryValueCount()
    ensures |TelemetryFormat| == 686
    ensures |TelemetryFormat| - |FromParticipants| == 178
  {
    WheelsSize();
    InfoSize();
  }

  /** The number of values in each segment. */
  lemma SegmentLengths()
    ensures |StateFormat| == 9 && |TimingsFormat| == 21 && |ControlsFormat| == 3
    ensures |CarFormat| == 19 && |MotionFormat| == 22 && |WheelsFormat| == 92
    ensures |EnvironmentFormat| == 10 && |ParticipantsFormat| == 504 && |TrailerFormat| == 4
  {
    WheelsSize();
    InfoSize();
  }

  /** Each segment of `vs` conforms to its format, cut at the boundaries below. */
  predicate Segmented(vs: seq<Value>) {
    && |vs| == 686
    && Conforms(Packet.HeaderFormat, vs[..2]) && Conforms(StateFormat, vs[2..11])
    && Conforms(TimingsFormat, vs[11..32]) && Conforms(ControlsFormat, vs[32..35])
    && Conforms(CarFormat, vs[35..54]) && Conforms(MotionFormat, vs[54..76])
    && Conforms(WheelsFormat, vs[76..168]) && Conforms(EnvironmentFormat, vs[168..178])
    && Conforms(ParticipantsFormat, vs[178..682]) && Conforms(TrailerFormat, vs[682..])
  }

  /** The values of a conforming list, cut at the segment boundaries: the
      header at 0, the state at 2, the timings at 11, the controls at 32, the
      car at 35, the motion at 54, the wheels at 76, the environment at 168,
      the participant blocks at 178 and the trailer at 682. */
  lemma TelemetrySegments(vs: seq<Value>)
    requires Conforms(TelemetryFormat, vs)
    ensures Segmented(vs)
  {
    TelemetryValueCount();
    FrontSegments(vs);
    MiddleSegments(vs);
    WheelSegments(vs);
    BackSegments(vs);
  }

  lemma FrontSegments(vs: seq<Value>)
    requires Conforms(TelemetryFormat, vs)
    ensures |vs| == 686
    ensures Conforms(Packet.HeaderFormat, vs[..2]) && Conforms(StateFormat, vs[2..11])
    ensures Conforms(TimingsFormat, vs[11..32]) && Conforms(FromControls, vs[32..])
  {
    TelemetryValueCount();
    SegmentLengths();
    assert vs[0..] == vs;
    ConformsAt(Packet.HeaderFormat, FromState, vs, 0);
    assert vs[0..2] == vs[..2];
    ConformsAt(StateFormat, FromTimings, vs, 2);
    ConformsAt(TimingsFormat, FromControls, vs, 11);
  }

  lemma MiddleSegments(vs: seq<Value>)
    requires |vs| == 686 && Conforms(FromControls, vs[32..])
    ensures Conforms(ControlsFormat, vs[32..35]) && Conforms(CarFormat, vs[35..54])
    ensures Conforms(MotionFormat, vs[54..76]) && Conforms(FromWheels, vs[76..])
  {
    SegmentLengths();
    ConformsAt(ControlsFormat, FromCar, vs, 32);
    ConformsAt(CarFormat, FromMotion, vs, 35);
    ConformsAt(MotionFormat, FromWheels, vs, 54);
  }

  lemma WheelSegments(vs: seq<Value>)
    requires |vs| == 686 && Conforms(FromWheels, vs[76..])
    ensures Conforms(WheelsFormat, vs[76..168]) && Conforms(EnvironmentFormat, vs[168..178])
    ensures Conforms(FromParticipants, vs[178..])
  {
    SegmentLengths();
    ConformsAt(WheelsFormat, FromEnvironment, vs, 76);
    ConformsAt(EnvironmentFormat, FromParticipants, vs, 168);
  }

  lemma BackSegments(vs: seq<Value>)
    requires |vs| == 686 && Conforms(FromParticipants, vs[178..])
    ensures Conforms(ParticipantsFormat, vs[178..682]) && Conforms(TrailerFormat, vs[682..])
  {
    SegmentLengths();
    ConformsAt(ParticipantsFormat, TrailerFormat, vs, 178);
  }
}
