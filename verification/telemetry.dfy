/** `TelemetryDataPacket`: the 1367-byte telemetry layout.

    The format string is built in the source by appending one piece per group
    of fields; here each piece is a segment with its own record, and the whole
    format is the concatenation of the segments in the same order, so the
    values popped off the deque land in the same fields. Floats are kept as
    their four stored bytes.
 */
module Telemetry {
  import opened Bytes
  import opened Results
  import opened StructFormat
  import Packet
  import opened TelemetryLayout

  // ---------------------------------------------------------------------------
  // Records
  // ---------------------------------------------------------------------------

  datatype State = State(
    gameSessionState: byte,
    viewedParticipantIndex: i8,
    numParticipants: i8,
    unfilteredThrottle: byte,
    unfilteredBrake: byte,
    unfilteredSteering: i8,
    unfilteredClutch: byte,
    raceStateFlags: byte,
    lapsInEvent: byte)

  datatype Timings = Timings(
    bestLapTime: F32,
    lastLapTime: F32,
    currentTime: F32,
    splitTimeAhead: F32,
    splitTimeBehind: F32,
    splitTime: F32,
    eventTimeRemaining: F32,
    personalFastestLapTime: F32,
    worldFastestLapTime: F32,
    currentS1Time: F32,
    currentS2Time: F32,
    currentS3Time: F32,
    fastestS1Time: F32,
    fastestS2Time: F32,
    fastestS3Time: F32,
    personalFastestS1Time: F32,
    personalFastestS2Time: F32,
    personalFastestS3Time: F32,
    worldFastestS1Time: F32,
    worldFastestS2Time: F32,
    worldFastestS3Time: F32)

  datatype Controls = Controls(joypad: u16, highestFlag: byte, pitModeSchedule: byte)

  datatype Car = Car(
    oilTemp: i16,
    oilPressure: u16,
    waterTemp: i16,
    waterPressure: u16,
    fuelPressure: u16,
    carFlags: byte,
    fuelCapacity: byte,
    brake: byte,
    throttle: byte,
    clutch: byte,
    steering: i8,
    fuelLevel: F32,
    speed: F32,
    rpm: u16,
    maxRpm: u16,
    gearNumGears: byte,
    boostAmount: byte,
    enforcedPitStopLap: i8,
    crashState: byte)

  datatype Motion = Motion(
    odometer: F32,
    orientation: seq<F32>,
    localVelocity: seq<F32>,
    worldVelocity: seq<F32>,
    angularVelocity: seq<F32>,
    localAcceleration: seq<F32>,
    worldAcceleration: seq<F32>,
    extentsCentre: seq<F32>)

  /** The per-tyre lists, front-left, front-right, rear-left, rear-right. */
  datatype Wheels = Wheels(
    tyreFlags: seq<byte>,
    terrain: seq<byte>,
    tyreY: seq<F32>,
    tyreRps: seq<F32>,
    tyreSlipSpeed: seq<F32>,
    tyreTemp: seq<byte>,
    tyreGrip: seq<byte>,
    tyreHeightAboveGround: seq<F32>,
    tyreLateralStiffness: seq<F32>,
    tyreWear: seq<byte>,
    brakeDamage: seq<byte>,
    suspensionDamage: seq<byte>,
    brakeTemp: seq<i16>,
    tyreTreadTemp: seq<u16>,
    tyreLayerTemp: seq<u16>,
    tyreCarcassTemp: seq<u16>,
    tyreRimTemp: seq<u16>,
    tyreInternalAirTemp: seq<u16>,
    wheelLocalPositionY: seq<F32>,
    rideHeight: seq<F32>,
    suspensionTravel: seq<F32>,
    suspensionVelocity: seq<F32>,
    airPressure: seq<u16>)

  datatype Environment = Environment(
    engineSpeed: F32,
    engineTorque: F32,
    aeroDamage: byte,
    engineDamage: byte,
    ambientTemperature: i8,
    trackTemperature: i8,
    rainDensity: byte,
    windSpeed: i8,
    windDirectionX: i8,
    windDirectionY: i8)

  /** `ParticipantInfo`: one 9-value block. */
  datatype ParticipantInfo = ParticipantInfo(
    worldPosition: seq<i16>,
    currentLapDistance: u16,
    racePositionByte: byte,
    lapsCompletedByte: byte,
    currentLap: byte,
    sectorByte: byte,
    lastSectorTime: F32)

  datatype TelemetryDataPacket = TelemetryDataPacket(
    hash: int,
    header: Packet.Header,
    state: State,
    timings: Timings,
    controls: Controls,
    car: Car,
    motion: Motion,
    wheels: Wheels,
    environment: Environment,
    participantInfo: seq<ParticipantInfo>,
    trackLength: F32,
    wings: seq<byte>,
    dPad: byte)

  /** Every list has the length the layout gives it. */
  predicate WellFormed(t: TelemetryDataPacket) {
    && MotionWellFormed(t.motion)
    && WheelsWellFormed(t.wheels)
    && |t.participantInfo| == ParticipantCount
    && (forall i | 0 <= i < |t.participantInfo| :: |t.participantInfo[i].worldPosition| == 3)
    && |t.wings| == 2
  }

  // ---------------------------------------------------------------------------
  // Segment values: what each record packs to, and the record read back
  // ---------------------------------------------------------------------------

  function StateValues(s: State): (vs: seq<Value>)
    ensures Conforms(StateFormat, vs)
  {
    [Int(s.gameSessionState), Int(s.viewedParticipantIndex), Int(s.numParticipants),
     Int(s.unfilteredThrottle), Int(s.unfilteredBrake), Int(s.unfilteredSteering),
     Int(s.unfilteredClutch), Int(s.raceStateFlags), Int(s.lapsInEvent)]
  }

  function StateOf(vs: seq<Value>): (s: State)
    requires Conforms(StateFormat, vs)
    ensures StateValues(s) == vs
  {
    State(vs[0].n, vs[1].n, vs[2].n, vs[3].n, vs[4].n, vs[5].n, vs[6].n, vs[7].n, vs[8].n)
  }

  function TimingsValues(t: Timings): (vs: seq<Value>)
    ensures Conforms(TimingsFormat, vs)
  {
    Words([t.bestLapTime, t.lastLapTime, t.currentTime, t.splitTimeAhead, t.splitTimeBehind,
           t.splitTime, t.eventTimeRemaining, t.personalFastestLapTime, t.worldFastestLapTime,
           t.currentS1Time, t.currentS2Time, t.currentS3Time,
           t.fastestS1Time, t.fastestS2Time, t.fastestS3Time,
           t.personalFastestS1Time, t.personalFastestS2Time, t.personalFastestS3Time,
           t.worldFastestS1Time, t.worldFastestS2Time, t.worldFastestS3Time])
  }

  function TimingsOf(vs: seq<Value>): (t: Timings)
    requires Conforms(TimingsFormat, vs)
    ensures TimingsValues(t) == vs
  {
    var w := F32List(vs);
    Timings(w[0], w[1], w[2], w[3], w[4], w[5], w[6], w[7], w[8], w[9], w[10],
            w[11], w[12], w[13], w[14], w[15], w[16], w[17], w[18], w[19], w[20])
  }

  function ControlsValues(c: Controls): (vs: seq<Value>)
    ensures Conforms(ControlsFormat, vs)
  {
    [Int(c.joypad), Int(c.highestFlag), Int(c.pitModeSchedule)]
  }

  function ControlsOf(vs: seq<Value>): (c: Controls)
    requires Conforms(ControlsFormat, vs)
    ensures ControlsValues(c) == vs
  {
    Controls(vs[0].n, vs[1].n, vs[2].n)
  }

  function CarValues(c: Car): (vs: seq<Value>)
    ensures Conforms(CarFormat, vs)
  {
    [Int(c.oilTemp), Int(c.oilPressure), Int(c.waterTemp), Int(c.waterPressure),
     Int(c.fuelPressure), Int(c.carFlags), Int(c.fuelCapacity), Int(c.brake),
     Int(c.throttle), Int(c.clutch), Int(c.steering), Word(c.fuelLevel), Word(c.speed),
     Int(c.rpm), Int(c.maxRpm), Int(c.gearNumGears), Int(c.boostAmount),
     Int(c.enforcedPitStopLap), Int(c.crashState)]
  }

  function CarOf(vs: seq<Value>): (c: Car)
    requires Conforms(CarFormat, vs)
    ensures CarValues(c) == vs
  {
    Car(vs[0].n, vs[1].n, vs[2].n, vs[3].n, vs[4].n, vs[5].n, vs[6].n, vs[7].n, vs[8].n,
        vs[9].n, vs[10].n, vs[11].word, vs[12].word, vs[13].n, vs[14].n, vs[15].n,
        vs[16].n, vs[17].n, vs[18].n)
  }

  predicate MotionWellFormed(m: Motion) {
    && |m.orientation| == 3 && |m.localVelocity| == 3 && |m.worldVelocity| == 3
    && |m.angularVelocity| == 3 && |m.localAcceleration| == 3 && |m.worldAcceleration| == 3
    && |m.extentsCentre| == 3
  }

  function MotionValues(m: Motion): (vs: seq<Value>)
    requires MotionWellFormed(m)
    ensures Conforms(MotionFormat, vs)
  {
    Words([m.odometer] + m.orientation + m.localVelocity + m.worldVelocity
          + m.angularVelocity + m.localAcceleration + m.worldAcceleration + m.extentsCentre)
  }

  function MotionOf(vs: seq<Value>): (m: Motion)
    requires Conforms(MotionFormat, vs)
    ensures MotionWellFormed(m) && MotionValues(m) == vs
  {
    var w := F32List(vs);
    var m := Motion(w[0], w[1..4], w[4..7], w[7..10], w[10..13], w[13..16], w[16..19], w[19..22]);
    assert [m.odometer] + m.orientation + m.localVelocity + m.worldVelocity
          + m.angularVelocity + m.localAcceleration + m.worldAcceleration + m.extentsCentre == w;
    m
  }

  predicate WheelsWellFormed(w: Wheels) {
    && |w.tyreFlags| == 4 && |w.terrain| == 4 && |w.tyreY| == 4 && |w.tyreRps| == 4
    && |w.tyreSlipSpeed| == 4 && |w.tyreTemp| == 4 && |w.tyreGrip| == 4
    && |w.tyreHeightAboveGround| == 4 && |w.tyreLateralStiffness| == 4 && |w.tyreWear| == 4
    && |w.brakeDamage| == 4 && |w.suspensionDamage| == 4 && |w.brakeTemp| == 4
    && |w.tyreTreadTemp| == 4 && |w.tyreLayerTemp| == 4 && |w.tyreCarcassTemp| == 4
    && |w.tyreRimTemp| == 4 && |w.tyreInternalAirTemp| == 4 && |w.wheelLocalPositionY| == 4
    && |w.rideHeight| == 4 && |w.suspensionTravel| == 4 && |w.suspensionVelocity| == 4
    && |w.airPressure| == 4
  }

  /** The per-tyre lists in pop order, grouped by the runs of the format. */
  function WheelsValues(w: Wheels): (vs: seq<Value>)
    requires WheelsWellFormed(w)
    ensures Conforms(WheelsFormat, vs)
  {
    var vs :=
      (Ints(w.tyreFlags) + Ints(w.terrain))
      + ((Words(w.tyreY) + (Words(w.tyreRps) + Words(w.tyreSlipSpeed)))
      + ((Ints(w.tyreTemp) + Ints(w.tyreGrip))
      + ((Words(w.tyreHeightAboveGround) + Words(w.tyreLateralStiffness))
      + ((Ints(w.tyreWear) + (Ints(w.brakeDamage) + Ints(w.suspensionDamage)))
      + (Ints(w.brakeTemp)
      + ((Ints(w.tyreTreadTemp) + (Ints(w.tyreLayerTemp) + (Ints(w.tyreCarcassTemp)
          + (Ints(w.tyreRimTemp) + Ints(w.tyreInternalAirTemp)))))
      + ((Words(w.wheelLocalPositionY) + (Words(w.rideHeight)
          + (Words(w.suspensionTravel) + Words(w.suspensionVelocity))))
      + Ints(w.airPressure))))))));
    WheelsValuesConform(w);
    vs
  }

  lemma WheelsValuesConform(w: Wheels)
    requires WheelsWellFormed(w)
    ensures Conforms(WheelsFormat,
      (Ints(w.tyreFlags) + Ints(w.terrain))
      + ((Words(w.tyreY) + (Words(w.tyreRps) + Words(w.tyreSlipSpeed)))
      + ((Ints(w.tyreTemp) + Ints(w.tyreGrip))
      + ((Words(w.tyreHeightAboveGround) + Words(w.tyreLateralStiffness))
      + ((Ints(w.tyreWear) + (Ints(w.brakeDamage) + Ints(w.suspensionDamage)))
      + (Ints(w.brakeTemp)
      + ((Ints(w.tyreTreadTemp) + (Ints(w.tyreLayerTemp) + (Ints(w.tyreCarcassTemp)
          + (Ints(w.tyreRimTemp) + Ints(w.tyreInternalAirTemp)))))
      + ((Words(w.wheelLocalPositionY) + (Words(w.rideHeight)
          + (Words(w.suspensionTravel) + Words(w.suspensionVelocity))))
      + Ints(w.airPressure)))))))))
  {
    var r1 := Ints(w.tyreFlags) + Ints(w.terrain);
    assert Conforms(Rep(UByte, 8), r1) by {
      ByteListRoundTrip(w.tyreFlags);
      ByteListRoundTrip(w.terrain);
      ConformsRepJoin(UByte, Ints(w.tyreFlags), Ints(w.terrain));
    }
    var r2 := Words(w.tyreY) + (Words(w.tyreRps) + Words(w.tyreSlipSpeed));
    assert Conforms(Rep(Float, 12), r2) by {
      F32ListRoundTrip(w.tyreY);
      F32ListRoundTrip(w.tyreRps);
      F32ListRoundTrip(w.tyreSlipSpeed);
      ConformsRepJoin(Float, Words(w.tyreRps), Words(w.tyreSlipSpeed));
      ConformsRepJoin(Float, Words(w.tyreY), Words(w.tyreRps) + Words(w.tyreSlipSpeed));
    }
    var r3 := Ints(w.tyreTemp) + Ints(w.tyreGrip);
    assert Conforms(Rep(UByte, 8), r3) by {
      ByteListRoundTrip(w.tyreTemp);
      ByteListRoundTrip(w.tyreGrip);
      ConformsRepJoin(UByte, Ints(w.tyreTemp), Ints(w.tyreGrip));
    }
    var r4 := Words(w.tyreHeightAboveGround) + Words(w.tyreLateralStiffness);
    assert Conforms(Rep(Float, 8), r4) by {
      F32ListRoundTrip(w.tyreHeightAboveGround);
      F32ListRoundTrip(w.tyreLateralStiffness);
      ConformsRepJoin(Float, Words(w.tyreHeightAboveGround), Words(w.tyreLateralStiffness));
    }
    var r5 := Ints(w.tyreWear) + (Ints(w.brakeDamage) + Ints(w.suspensionDamage));
    assert Conforms(Rep(UByte, 12), r5) by {
      ByteListRoundTrip(w.tyreWear);
      ByteListRoundTrip(w.brakeDamage);
      ByteListRoundTrip(w.suspensionDamage);
      ConformsRepJoin(UByte, Ints(w.brakeDamage), Ints(w.suspensionDamage));
      ConformsRepJoin(UByte, Ints(w.tyreWear), Ints(w.brakeDamage) + Ints(w.suspensionDamage));
    }
    var r6 := Ints(w.brakeTemp);
    assert Conforms(Rep(SShort, 4), r6) by {
      I16ListRoundTrip(w.brakeTemp);
    }
    var r7 := Ints(w.tyreTreadTemp) + (Ints(w.tyreLayerTemp) + (Ints(w.tyreCarcassTemp)
      + (Ints(w.tyreRimTemp) + Ints(w.tyreInternalAirTemp))));
    assert Conforms(Rep(UShort, 20), r7) by {
      U16ListRoundTrip(w.tyreTreadTemp);
      U16ListRoundTrip(w.tyreLayerTemp);
      U16ListRoundTrip(w.tyreCarcassTemp);
      U16ListRoundTrip(w.tyreRimTemp);
      U16ListRoundTrip(w.tyreInternalAirTemp);
      var x := Ints(w.tyreRimTemp) + Ints(w.tyreInternalAirTemp);
      ConformsRepJoin(UShort, Ints(w.tyreRimTemp), Ints(w.tyreInternalAirTemp));
      ConformsRepJoin(UShort, Ints(w.tyreCarcassTemp), x);
      ConformsRepJoin(UShort, Ints(w.tyreLayerTemp), Ints(w.tyreCarcassTemp) + x);
      ConformsRepJoin(UShort, Ints(w.tyreTreadTemp), Ints(w.tyreLayerTemp) + (Ints(w.tyreCarcassTemp) + x));
    }
    var r8 := Words(w.wheelLocalPositionY) + (Words(w.rideHeight)
      + (Words(w.suspensionTravel) + Words(w.suspensionVelocity)));
    assert Conforms(Rep(Float, 16), r8) by {
      F32ListRoundTrip(w.wheelLocalPositionY);
      F32ListRoundTrip(w.rideHeight);
      F32ListRoundTrip(w.suspensionTravel);
      F32ListRoundTrip(w.suspensionVelocity);
      var x := Words(w.suspensionTravel) + Words(w.suspensionVelocity);
      ConformsRepJoin(Float, Words(w.suspensionTravel), Words(w.suspensionVelocity));
      ConformsRepJoin(Float, Words(w.rideHeight), x);
      ConformsRepJoin(Float, Words(w.wheelLocalPositionY), Words(w.rideHeight) + x);
    }
    var r9 := Ints(w.airPressure);
    assert Conforms(Rep(UShort, 4), r9) by {
      U16ListRoundTrip(w.airPressure);
    }
    ConformsConcat(Rep(Float, 16), Rep(UShort, 4), r8, r9);
    ConformsConcat(Rep(UShort, 20), Rep(Float, 16) + Rep(UShort, 4), r7, r8 + r9);
    var f7 := Rep(UShort, 20) + (Rep(Float, 16) + Rep(UShort, 4));
    ConformsConcat(Rep(SShort, 4), f7, r6, r7 + (r8 + r9));
    var f6 := Rep(SShort, 4) + f7;
    ConformsConcat(Rep(UByte, 12), f6, r5, r6 + (r7 + (r8 + r9)));
    var f5 := Rep(UByte, 12) + f6;
    ConformsConcat(Rep(Float, 8), f5, r4, r5 + (r6 + (r7 + (r8 + r9))));
    var f4 := Rep(Float, 8) + f5;
    ConformsConcat(Rep(UByte, 8), f4, r3, r4 + (r5 + (r6 + (r7 + (r8 + r9)))));
    var f3 := Rep(UByte, 8) + f4;
    ConformsConcat(Rep(Float, 12), f3, r2, r3 + (r4 + (r5 + (r6 + (r7 + (r8 + r9))))));
    var f2 := Rep(Float, 12) + f3;
    ConformsConcat(Rep(UByte, 8), f2, r1, r2 + (r3 + (r4 + (r5 + (r6 + (r7 + (r8 + r9)))))));
  }

  /** The 23 `for _ in range(4)` loops over the wheel values. */
  function WheelsOf(vs: seq<Value>): (w: Wheels)
    requires Conforms(WheelsFormat, vs)
    ensures WheelsWellFormed(w) && WheelsValues(w) == vs
  {
    var f8 := Rep(Float, 16) + Rep(UShort, 4);
    var f7 := Rep(UShort, 20) + f8;
    var f6 := Rep(SShort, 4) + f7;
    var f5 := Rep(UByte, 12) + f6;
    var f4 := Rep(Float, 8) + f5;
    var f3 := Rep(UByte, 8) + f4;
    var f2 := Rep(Float, 12) + f3;
    ConformsAppend(Rep(UByte, 8), f2, vs);
    var a1 := vs[..8]; var s1 := vs[8..];
    ConformsAppend(Rep(Float, 12), f3, s1);
    var a2 := s1[..12]; var s2 := s1[12..];
    ConformsAppend(Rep(UByte, 8), f4, s2);
    var a3 := s2[..8]; var s3 := s2[8..];
    ConformsAppend(Rep(Float, 8), f5, s3);
    var a4 := s3[..8]; var s4 := s3[8..];
    ConformsAppend(Rep(UByte, 12), f6, s4);
    var a5 := s4[..12]; var s5 := s4[12..];
    ConformsAppend(Rep(SShort, 4), f7, s5);
    var a6 := s5[..4]; var s6 := s5[4..];
    ConformsAppend(Rep(UShort, 20), f8, s6);
    var a7 := s6[..20]; var s7 := s6[20..];
    ConformsAppend(Rep(Float, 16), Rep(UShort, 4), s7);
    var a8 := s7[..16]; var a9 := s7[16..];
    ConformsRepSplit(UByte, 8, 4, a1);
    ConformsRepSplit(Float, 12, 4, a2);
    ConformsRepSplit(Float, 8, 4, a2[4..]);
    ConformsRepSplit(UByte, 8, 4, a3);
    ConformsRepSplit(Float, 8, 4, a4);
    ConformsRepSplit(UByte, 12, 4, a5);
    ConformsRepSplit(UByte, 8, 4, a5[4..]);
    ConformsRepSplit(UShort, 20, 4, a7);
    ConformsRepSplit(UShort, 16, 4, a7[4..]);
    ConformsRepSplit(UShort, 12, 4, a7[4..][4..]);
    ConformsRepSplit(UShort, 8, 4, a7[4..][4..][4..]);
    ConformsRepSplit(Float, 16, 4, a8);
    ConformsRepSplit(Float, 12, 4, a8[4..]);
    ConformsRepSplit(Float, 8, 4, a8[4..][4..]);
    Wheels(
      ByteList(a1[..4]), ByteList(a1[4..]),
      F32List(a2[..4]), F32List(a2[4..][..4]), F32List(a2[4..][4..]),
      ByteList(a3[..4]), ByteList(a3[4..]),
      F32List(a4[..4]), F32List(a4[4..]),
      ByteList(a5[..4]), ByteList(a5[4..][..4]), ByteList(a5[4..][4..]),
      I16List(a6),
      U16List(a7[..4]), U16List(a7[4..][..4]), U16List(a7[4..][4..][..4]),
      U16List(a7[4..][4..][4..][..4]), U16List(a7[4..][4..][4..][4..]),
      F32List(a8[..4]), F32List(a8[4..][..4]), F32List(a8[4..][4..][..4]), F32List(a8[4..][4..][4..]),
      U16List(a9))
  }

  function EnvironmentValues(e: Environment): (vs: seq<Value>)
    ensures Conforms(EnvironmentFormat, vs)
  {
    [Word(e.engineSpeed), Word(e.engineTorque), Int(e.aeroDamage), Int(e.engineDamage),
     Int(e.ambientTemperature), Int(e.trackTemperature), Int(e.rainDensity),
     Int(e.windSpeed), Int(e.windDirectionX), Int(e.windDirectionY)]
  }

  function EnvironmentOf(vs: seq<Value>): (e: Environment)
    requires Conforms(EnvironmentFormat, vs)
    ensures EnvironmentValues(e) == vs
  {
    Environment(vs[0].word, vs[1].word, vs[2].n, vs[3].n, vs[4].n, vs[5].n, vs[6].n,
                vs[7].n, vs[8].n, vs[9].n)
  }

  function InfoValues(p: ParticipantInfo): (vs: seq<Value>)
    requires |p.worldPosition| == 3
    ensures Conforms(InfoFormat, vs)
  {
    [Int(p.worldPosition[0]), Int(p.worldPosition[1]), Int(p.worldPosition[2]),
     Int(p.currentLapDistance), Int(p.racePositionByte), Int(p.lapsCompletedByte),
     Int(p.currentLap), Int(p.sectorByte), Word(p.lastSectorTime)]
  }

  /** `ParticipantInfo.__init__`: pops exactly the nine values of one block. */
  function InfoOf(vs: seq<Value>): (p: ParticipantInfo)
    requires Conforms(InfoFormat, vs)
    ensures |p.worldPosition| == 3 && InfoValues(p) == vs
  {
    ParticipantInfo([vs[0].n, vs[1].n, vs[2].n], vs[3].n, vs[4].n, vs[5].n, vs[6].n,
                    vs[7].n, vs[8].word)
  }

  /** The values of a list of participant blocks, block after block. */
  function ParticipantsValues(ps: seq<ParticipantInfo>): (vs: seq<Value>)
    requires forall i | 0 <= i < |ps| :: |ps[i].worldPosition| == 3
    ensures Conforms(Repeat(InfoFormat, |ps|), vs)
  {
    var bs := seq(|ps|, k requires 0 <= k < |ps| => InfoValues(ps[k]));
    ConcatConforms(InfoFormat, bs);
    Concat(bs)
  }

  /** The `for _ in range(56)` loop: `n` blocks, each consuming nine values. */
  function ParticipantsOf(vs: seq<Value>, n: nat): (ps: seq<ParticipantInfo>)
    requires Conforms(Repeat(InfoFormat, n), vs)
    ensures |ps| == n
    ensures forall i | 0 <= i < n :: |ps[i].worldPosition| == 3
  {
    var bs := Blocks(InfoFormat, n, vs);
    seq(n, k requires 0 <= k < n => InfoOf(bs[k]))
  }

  /** The participant blocks pack back to the values they were read from. */
  lemma ParticipantsRoundTrip(vs: seq<Value>, n: nat)
    requires Conforms(Repeat(InfoFormat, n), vs)
    ensures ParticipantsValues(ParticipantsOf(vs, n)) == vs
  {
    var ps := ParticipantsOf(vs, n);
    var bs := Blocks(InfoFormat, n, vs);
    assert seq(n, k requires 0 <= k < n => InfoValues(ps[k])) == bs;
    ConcatBlocks(InfoFormat, n, vs);
  }

  function TrailerValues(t: TelemetryDataPacket): (vs: seq<Value>)
    requires |t.wings| == 2
    ensures Conforms(TrailerFormat, vs)
  {
    [Word(t.trackLength), Int(t.wings[0]), Int(t.wings[1]), Int(t.dPad)]
  }

  /** The track length, the two wing settings and the d-pad byte. */
  function TrailerOf(vs: seq<Value>): (r: (F32, byte, byte, byte))
    requires Conforms(TrailerFormat, vs)
    ensures vs == [Word(r.0), Int(r.1), Int(r.2), Int(r.3)]
  {
    (vs[0].word, vs[1].n, vs[2].n, vs[3].n)
  }

  // ---------------------------------------------------------------------------
  // The whole packet
  // ---------------------------------------------------------------------------

  /** The values `struct.unpack` yields for a packet, in format order. */
  function TelemetryValues(t: TelemetryDataPacket): (vs: seq<Value>)
    requires WellFormed(t)
    ensures Conforms(TelemetryFormat, vs)
  {
    var v9 := ParticipantsValues(t.participantInfo) + TrailerValues(t);
    ConformsConcat(ParticipantsFormat, TrailerFormat, ParticipantsValues(t.participantInfo), TrailerValues(t));
    var v8 := EnvironmentValues(t.environment) + v9;
    ConformsConcat(EnvironmentFormat, FromParticipants, EnvironmentValues(t.environment), v9);
    var v7 := WheelsValues(t.wheels) + v8;
    ConformsConcat(WheelsFormat, FromEnvironment, WheelsValues(t.wheels), v8);
    var v6 := MotionValues(t.motion) + v7;
    ConformsConcat(MotionFormat, FromWheels, MotionValues(t.motion), v7);
    var v5 := CarValues(t.car) + v6;
    ConformsConcat(CarFormat, FromMotion, CarValues(t.car), v6);
    var v4 := ControlsValues(t.controls) + v5;
    ConformsConcat(ControlsFormat, FromCar, ControlsValues(t.controls), v5);
    var v3 := TimingsValues(t.timings) + v4;
    ConformsConcat(TimingsFormat, FromControls, TimingsValues(t.timings), v4);
    var v2 := StateValues(t.state) + v3;
    ConformsConcat(StateFormat, FromTimings, StateValues(t.state), v3);
    ConformsConcat(Packet.HeaderFormat, FromState, Packet.HeaderValues(t.header), v2);
    Packet.HeaderValues(t.header) + v2
  }

  /** The record the `__init__` body fills in, popping the values in order. */
  function Build(hash: int, vs: seq<Value>): (t: TelemetryDataPacket)
    requires Conforms(TelemetryFormat, vs)
    ensures t.hash == hash && WellFormed(t)
  {
    TelemetrySegments(vs);
    Assemble(hash, vs[..2], vs[2..11], vs[11..32], vs[32..35], vs[35..54], vs[54..76],
             vs[76..168], vs[168..178], vs[178..682], vs[682..])
  }

  /** `Build` given the values of each segment. */
  function Assemble(hash: int, header: seq<Value>, state: seq<Value>, timings: seq<Value>,
                    controls: seq<Value>, car: seq<Value>, motion: seq<Value>, wheels: seq<Value>,
                    environment: seq<Value>, participants: seq<Value>, trailer: seq<Value>): (t: TelemetryDataPacket)
    requires Conforms(Packet.HeaderFormat, header) && Conforms(StateFormat, state)
    requires Conforms(TimingsFormat, timings) && Conforms(ControlsFormat, controls)
    requires Conforms(CarFormat, car) && Conforms(MotionFormat, motion)
    requires Conforms(WheelsFormat, wheels) && Conforms(EnvironmentFormat, environment)
    requires Conforms(ParticipantsFormat, participants) && Conforms(TrailerFormat, trailer)
    ensures t.hash == hash && WellFormed(t)
  {
    var tr := TrailerOf(trailer);
    TelemetryDataPacket(
      hash, Packet.HeaderOf(header), StateOf(state), TimingsOf(timings), ControlsOf(controls),
      CarOf(car), MotionOf(motion), WheelsOf(wheels), EnvironmentOf(environment),
      ParticipantsOf(participants, ParticipantCount), tr.0, [tr.1, tr.2], tr.3)
  }

  /** Packing an assembled record gives back the segments, in order. */
  lemma AssembleValues(hash: int, header: seq<Value>, state: seq<Value>, timings: seq<Value>,
                       controls: seq<Value>, car: seq<Value>, motion: seq<Value>, wheels: seq<Value>,
                       environment: seq<Value>, participants: seq<Value>, trailer: seq<Value>)
    requires Conforms(Packet.HeaderFormat, header) && Conforms(StateFormat, state)
    requires Conforms(TimingsFormat, timings) && Conforms(ControlsFormat, controls)
    requires Conforms(CarFormat, car) && Conforms(MotionFormat, motion)
    requires Conforms(WheelsFormat, wheels) && Conforms(EnvironmentFormat, environment)
    requires Conforms(ParticipantsFormat, participants) && Conforms(TrailerFormat, trailer)
    ensures TelemetryValues(Assemble(hash, header, state, timings, controls, car, motion, wheels,
                                     environment, participants, trailer))
         == header + (state + (timings + (controls + (car + (motion + (wheels + (environment
              + (participants + trailer))))))))
  {
    ParticipantsRoundTrip(participants, ParticipantCount);
  }

  /** Reading the values into a record and packing it back gives the values. */
  lemma BuildValues(hash: int, vs: seq<Value>)
    requires Conforms(TelemetryFormat, vs)
    ensures TelemetryValues(Build(hash, vs)) == vs
  {
    TelemetrySegments(vs);
    AssembleValues(hash, vs[..2], vs[2..11], vs[11..32], vs[32..35], vs[35..54], vs[54..76],
                   vs[76..168], vs[168..178], vs[178..682], vs[682..]);
    JoinSegments(vs);
  }

  /** The ten segments of the value list, joined, are the list. */
  lemma JoinSegments(vs: seq<Value>)
    requires |vs| == 686
    ensures vs[..2] + (vs[2..11] + (vs[11..32] + (vs[32..35] + (vs[35..54] + (vs[54..76] + (vs[76..168]
              + (vs[168..178] + (vs[178..682] + vs[682..])))))))) == vs
  {
    JoinAt(vs, 178, 682);
    JoinAt(vs, 168, 178);
    JoinAt(vs, 76, 168);
    JoinAt(vs, 54, 76);
    JoinAt(vs, 35, 54);
    JoinAt(vs, 32, 35);
    JoinAt(vs, 11, 32);
    JoinAt(vs, 2, 11);
    JoinAt(vs, 0, 2);
    assert vs[0..2] == vs[..2] && vs[0..] == vs;
  }

  /** `TelemetryDataPacket.__init__`. */
  function Decode(hasher: seq<byte> -> int, data: seq<byte>): (r: Result<TelemetryDataPacket>)
    ensures r.Err? <==> |data| != 1367
    ensures r.Err? ==> r.error == StructError
    ensures r.Ok? ==> r.value.hash == hasher(data) && WellFormed(r.value)
  {
    TelemetrySize();
    var vs :- Unpack(TelemetryFormat, data);
    Ok(Build(hasher(data), vs))
  }

  /** A decoded record packs back to the buffer it was decoded from. */
  lemma EncodeDecode(hasher: seq<byte> -> int, data: seq<byte>)
    requires |data| == 1367
    ensures Decode(hasher, data).Ok? && Encode(Decode(hasher, data).value) == data
  {
    RepackDecoded(hasher, data);
  }

  /** `EncodeDecode`, once decoding is known to succeed. */
  lemma RepackDecoded(hasher: seq<byte> -> int, data: seq<byte>)
    requires Decode(hasher, data).Ok?
    ensures Encode(Decode(hasher, data).value) == data
  {
    TelemetrySize();
    PackUnpack(TelemetryFormat, data);
    EncodeBuild(hasher(data), UnpackAll(TelemetryFormat, data), data);
  }

  /** The record read from the values of `data` encodes back to `data`. */
  lemma EncodeBuild(hash: int, vs: seq<Value>, data: seq<byte>)
    requires Conforms(TelemetryFormat, vs) && PackAll(TelemetryFormat, vs) == data
    ensures Encode(Build(hash, vs)) == data
  {
    BuildValues(hash, vs);
  }

  /** The bytes of a packet, as `struct.pack(_packet_string, ...)` of its values. */
  function Encode(t: TelemetryDataPacket): (d: seq<byte>)
    requires WellFormed(t)
    ensures |d| == 1367
  {
    TelemetrySize();
    PackAll(TelemetryFormat, TelemetryValues(t))
  }
}
