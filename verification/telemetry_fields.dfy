/** The derived properties of `TelemetryDataPacket`: the nibbles and flag bits
    packed into single bytes, and the joypad button list.

    Each packed byte comes with the builder the source's tests use to make one
    (`(hi << 4) + lo`, `(flag << k) + ...`), a lemma that the properties read the
    builder's inputs back, and a lemma that the properties together with the bits
    they ignore give the byte back.
 */
module TelemetryFields {
  import opened Bytes
  import opened Telemetry

  // ---------------------------------------------------------------------------
  // Nibble pairs
  // ---------------------------------------------------------------------------

  /** `b & 0b00001111`. */
  function LowNibble(b: byte): (r: nat)
    ensures r < 16 && r == b % 16
  {
    assert Pow2(4) == 16;
    LowBits(b, 4);
    Bits(b, 0, 4)
  }

  /** `(b & 0b11110000) >> 4`. */
  function HighNibble(b: byte): (r: nat)
    ensures r < 16 && r == b / 16
  {
    assert Pow2(4) == 16;
    ModOfSmall(b / 16, 16);
    Bits(b, 4, 4)
  }

  /** `(hi << 4) + lo`: the byte a test builds from two nibbles. */
  function PackNibbles(hi: nat, lo: nat): (b: byte)
    requires hi < 16 && lo < 16
    ensures LowNibble(b) == lo && HighNibble(b) == hi
  {
    assert Pow2(4) == 16;
    PeelField(lo, 4, hi, 0, 4);
    WholeField(hi, 4);
    lo + 16 * hi
  }

  /** The two nibbles of any byte pack back to it. */
  lemma NibblesRebuildByte(b: byte)
    ensures PackNibbles(HighNibble(b), LowNibble(b)) == b
  {
    assert b == Bits(b, 0, 4) + 16 * Bits(b, 4, 4) by {
      assert Pow2(4) == 16 && Pow2(8) == 256;
      WholeField(b, 8);
      FieldSplit(b, 0, 4, 4);
    }
  }

  function GameState(t: TelemetryDataPacket): (r: nat)
    ensures r < 16 && r == t.state.gameSessionState % 16
  {
    LowNibble(t.state.gameSessionState)
  }

  function SessionState(t: TelemetryDataPacket): (r: nat)
    ensures r < 16 && r == t.state.gameSessionState / 16
  {
    HighNibble(t.state.gameSessionState)
  }

  /** `game_state` and `session_state` split `_game_session_state` without loss. */
  lemma GameSessionStateRebuild(t: TelemetryDataPacket)
    ensures PackNibbles(SessionState(t), GameState(t)) == t.state.gameSessionState
  {
    NibblesRebuildByte(t.state.gameSessionState);
  }

  function HighestFlagColor(t: TelemetryDataPacket): (r: nat)
    ensures r < 16 && r == t.controls.highestFlag % 16
  {
    LowNibble(t.controls.highestFlag)
  }

  function HighestFlagReason(t: TelemetryDataPacket): (r: nat)
    ensures r < 16 && r == t.controls.highestFlag / 16
  {
    HighNibble(t.controls.highestFlag)
  }

  /** `highest_flag_color` and `highest_flag_reason` split `_highest_flag` without loss. */
  lemma HighestFlagRebuild(t: TelemetryDataPacket)
    ensures PackNibbles(HighestFlagReason(t), HighestFlagColor(t)) == t.controls.highestFlag
  {
    NibblesRebuildByte(t.controls.highestFlag);
  }

  function PitMode(t: TelemetryDataPacket): (r: nat)
    ensures r < 16 && r == t.controls.pitModeSchedule % 16
  {
    LowNibble(t.controls.pitModeSchedule)
  }

  function PitSchedule(t: TelemetryDataPacket): (r: nat)
    ensures r < 16 && r == t.controls.pitModeSchedule / 16
  {
    HighNibble(t.controls.pitModeSchedule)
  }

  /** `pit_mode` and `pit_schedule` split `_pit_mode_schedule` without loss. */
  lemma PitModeScheduleRebuild(t: TelemetryDataPacket)
    ensures PackNibbles(PitSchedule(t), PitMode(t)) == t.controls.pitModeSchedule
  {
    NibblesRebuildByte(t.controls.pitModeSchedule);
  }

  function Gear(t: TelemetryDataPacket): (r: nat)
    ensures r < 16 && r == t.car.gearNumGears % 16
  {
    LowNibble(t.car.gearNumGears)
  }

  function NumGears(t: TelemetryDataPacket): (r: nat)
    ensures r < 16 && r == t.car.gearNumGears / 16
  {
    HighNibble(t.car.gearNumGears)
  }

  /** `gear` and `num_gears` split `_gear_num_gears` without loss. */
  lemma GearNumGearsRebuild(t: TelemetryDataPacket)
    ensures PackNibbles(NumGears(t), Gear(t)) == t.car.gearNumGears
  {
    NibblesRebuildByte(t.car.gearNumGears);
  }

  /** `crash_state`: the low nibble of `_crash_state`; the high nibble holds four
      joypad buttons. */
  function CrashState(t: TelemetryDataPacket): (r: nat)
    ensures r < 16 && r == t.car.crashState % 16
  {
    LowNibble(t.car.crashState)
  }

  // ---------------------------------------------------------------------------
  // Race state flags
  // ---------------------------------------------------------------------------

  /** `race_state`: bits 0-2 of `_race_state_flags`. */
  function RaceState(t: TelemetryDataPacket): (r: nat)
    ensures r < 8 && r == t.state.raceStateFlags % 8
  {
    assert Pow2(3) == 8;
    LowBits(t.state.raceStateFlags, 3);
    Bits(t.state.raceStateFlags, 0, 3)
  }

  /** `lap_invalidated`: the `0b00001000` bit of `_race_state_flags`. */
  function LapInvalidated(t: TelemetryDataPacket): (r: bool)
    ensures r <==> t.state.raceStateFlags % 16 >= 8
  {
    BitIsMask(t.state.raceStateFlags, 3);
    assert Pow2(3) == 8 && Pow2(4) == 16;
    Bit(t.state.raceStateFlags, 3)
  }

  /** `anti_lock_active`: the `0b00010000` bit. */
  function AntiLockActive(t: TelemetryDataPacket): (r: bool)
    ensures r <==> t.state.raceStateFlags % 32 >= 16
  {
    BitIsMask(t.state.raceStateFlags, 4);
    assert Pow2(4) == 16 && Pow2(5) == 32;
    Bit(t.state.raceStateFlags, 4)
  }

  /** `boost_active`: the `0b00100000` bit. */
  function BoostActive(t: TelemetryDataPacket): (r: bool)
    ensures r <==> t.state.raceStateFlags % 64 >= 32
  {
    BitIsMask(t.state.raceStateFlags, 5);
    assert Pow2(5) == 32 && Pow2(6) == 64;
    Bit(t.state.raceStateFlags, 5)
  }

  /** `(boost << 5) + (anti_lock << 4) + (lap_invalidated << 3) + race_state`. */
  function PackRaceStateFlags(raceState: nat, lapInvalidated: bool, antiLockActive: bool, boostActive: bool): (b: nat)
    requires raceState < 8
    ensures b < 64
  {
    FlagValue(boostActive) * 32 + FlagValue(antiLockActive) * 16 + FlagValue(lapInvalidated) * 8 + raceState
  }

  /** The four race-state properties read back what the flags byte was built from;
      the two top bits, which no property reads, may hold anything. */
  lemma RaceStateFlagsOfPacked(t: TelemetryDataPacket, raceState: nat, lapInvalidated: bool,
                               antiLockActive: bool, boostActive: bool, unused: nat)
    requires raceState < 8 && unused < 4
    requires t.state.raceStateFlags
          == PackRaceStateFlags(raceState, lapInvalidated, antiLockActive, boostActive) + 64 * unused
    ensures RaceState(t) == raceState
    ensures LapInvalidated(t) == lapInvalidated
    ensures AntiLockActive(t) == antiLockActive
    ensures BoostActive(t) == boostActive
  {
    RaceStateByteOfPacked(t.state.raceStateFlags, raceState, lapInvalidated, antiLockActive, boostActive, unused);
  }

  lemma RaceStateByteOfPacked(x: nat, raceState: nat, lapInvalidated: bool,
                              antiLockActive: bool, boostActive: bool, unused: nat)
    requires raceState < 8
    requires x == PackRaceStateFlags(raceState, lapInvalidated, antiLockActive, boostActive) + 64 * unused
    ensures Bits(x, 0, 3) == raceState
    ensures Bit(x, 3) == lapInvalidated && Bit(x, 4) == antiLockActive && Bit(x, 5) == boostActive
  {
    var l, a, b := FlagValue(lapInvalidated), FlagValue(antiLockActive), FlagValue(boostActive);
    assert Pow2(0) == 1 && Pow2(1) == 2 && Pow2(3) == 8 && Pow2(4) == 16 && Pow2(5) == 32;
    FieldOfSum(x, 0, 3, 1, 8, 0, raceState, l + 2 * a + 4 * b + 8 * unused);
    FieldOfSum(x, 3, 1, 8, 2, raceState, l, a + 2 * b + 4 * unused);
    FieldOfSum(x, 4, 1, 16, 2, raceState + 8 * l, a, b + 2 * unused);
    FieldOfSum(x, 5, 1, 32, 2, raceState + 8 * l + 16 * a, b, unused);
  }

  /** The race-state properties and the two unused top bits give the flags byte back. */
  lemma RaceStateFlagsRebuild(t: TelemetryDataPacket)
    ensures t.state.raceStateFlags
         == PackRaceStateFlags(RaceState(t), LapInvalidated(t), AntiLockActive(t), BoostActive(t))
          + 64 * Bits(t.state.raceStateFlags, 6, 2)
  {
    var x := t.state.raceStateFlags;
    assert Pow2(1) == 2 && Pow2(3) == 8 && Pow2(8) == 256;
    WholeField(x, 8);
    FieldSplit(x, 0, 3, 5);
    FieldSplit(x, 3, 1, 4);
    FieldSplit(x, 4, 1, 3);
    FieldSplit(x, 5, 1, 2);
  }

  // ---------------------------------------------------------------------------
  // Car flags
  // ---------------------------------------------------------------------------

  /** `car_headlight`: the `0b00000001` bit of `_car_flags`. */
  function CarHeadlight(t: TelemetryDataPacket): (r: bool)
    ensures r <==> t.car.carFlags % 2 >= 1
  {
    BitIsMask(t.car.carFlags, 0);
    assert Pow2(0) == 1 && Pow2(1) == 2;
    Bit(t.car.carFlags, 0)
  }

  /** `car_engine_active`: the `0b00000010` bit of `_car_flags`. */
  function CarEngineActive(t: TelemetryDataPacket): (r: bool)
    ensures r <==> t.car.carFlags % 4 >= 2
  {
    BitIsMask(t.car.carFlags, 1);
    assert Pow2(1) == 2 && Pow2(2) == 4;
    Bit(t.car.carFlags, 1)
  }

  /** `car_engine_warning`: the `0b00000100` bit of `_car_flags`. */
  function CarEngineWarning(t: TelemetryDataPacket): (r: bool)
    ensures r <==> t.car.carFlags % 8 >= 4
  {
    BitIsMask(t.car.carFlags, 2);
    assert Pow2(2) == 4 && Pow2(3) == 8;
    Bit(t.car.carFlags, 2)
  }

  /** `car_speed_limiter`: the `0b00001000` bit of `_car_flags`. */
  function CarSpeedLimiter(t: TelemetryDataPacket): (r: bool)
    ensures r <==> t.car.carFlags % 16 >= 8
  {
    BitIsMask(t.car.carFlags, 3);
    assert Pow2(3) == 8 && Pow2(4) == 16;
    Bit(t.car.carFlags, 3)
  }

  /** `car_abs`: the `0b00010000` bit of `_car_flags`. */
  function CarAbs(t: TelemetryDataPacket): (r: bool)
    ensures r <==> t.car.carFlags % 32 >= 16
  {
    BitIsMask(t.car.carFlags, 4);
    assert Pow2(4) == 16 && Pow2(5) == 32;
    Bit(t.car.carFlags, 4)
  }

  /** `car_handbrake`: the `0b00100000` bit of `_car_flags`. */
  function CarHandbrake(t: TelemetryDataPacket): (r: bool)
    ensures r <==> t.car.carFlags % 64 >= 32
  {
    BitIsMask(t.car.carFlags, 5);
    assert Pow2(5) == 32 && Pow2(6) == 64;
    Bit(t.car.carFlags, 5)
  }

  /** `car_stability`: the `0b01000000` bit of `_car_flags`. */
  function CarStability(t: TelemetryDataPacket): (r: bool)
    ensures r <==> t.car.carFlags % 128 >= 64
  {
    BitIsMask(t.car.carFlags, 6);
    assert Pow2(6) == 64 && Pow2(7) == 128;
    Bit(t.car.carFlags, 6)
  }

  /** `car_traction_control`: the `0b10000000` bit of `_car_flags`. */
  function CarTractionControl(t: TelemetryDataPacket): (r: bool)
    ensures r <==> t.car.carFlags >= 128
  {
    BitIsMask(t.car.carFlags, 7);
    assert Pow2(7) == 128 && Pow2(8) == 256;
    Bit(t.car.carFlags, 7)
  }

  /** The eight car flags, bit 0 first, as a test lists them. */
  function CarFlags(t: TelemetryDataPacket): (r: seq<bool>)
    ensures |r| == 8
  {
    [CarHeadlight(t), CarEngineActive(t), CarEngineWarning(t), CarSpeedLimiter(t),
     CarAbs(t), CarHandbrake(t), CarStability(t), CarTractionControl(t)]
  }

  function FlagValues(flags: seq<bool>): (r: seq<nat>)
    ensures |r| == |flags| && IsBitList(r)
  {
    seq(|flags|, i requires 0 <= i < |flags| => FlagValue(flags[i]))
  }

  /** `(traction_control << 7) + ... + (engine_active << 1) + headlight`. */
  function PackCarFlags(flags: seq<bool>): (b: byte)
    requires |flags| == 8
  {
    assert Pow2(8) == 256;
    PackBits(FlagValues(flags))
  }

  /** The car-flag properties read back the flags the byte was built from. */
  lemma CarFlagsOfPacked(t: TelemetryDataPacket, flags: seq<bool>)
    requires |flags| == 8 && t.car.carFlags == PackCarFlags(flags)
    ensures CarFlags(t) == flags
  {
    forall i | 0 <= i < 8 ensures CarFlags(t)[i] == flags[i] {
      BitOfPackBits(FlagValues(flags), i);
    }
  }

  /** The car-flag properties give the flags byte back. */
  lemma CarFlagsRebuild(t: TelemetryDataPacket)
    ensures PackCarFlags(CarFlags(t)) == t.car.carFlags
  {
    var x := t.car.carFlags;
    assert Pow2(8) == 256;
    FlagValuesOfBits(x, CarFlags(t));
    PackBitList(x, 8);
  }

  /** Flags read bit by bit from `x` are the bit list of `x`. */
  lemma FlagValuesOfBits(x: nat, flags: seq<bool>)
    requires forall i | 0 <= i < |flags| :: flags[i] == Bit(x, i)
    ensures FlagValues(flags) == BitList(x, |flags|)
  {
    forall i | 0 <= i < |flags| ensures FlagValues(flags)[i] == BitList(x, |flags|)[i] {
    }
  }

  // ---------------------------------------------------------------------------
  // Tyre flags
  // ---------------------------------------------------------------------------

  /** `[bool(tyre & 0b001) for tyre in _tyre_flags]`. */
  function TyreAttached(t: TelemetryDataPacket): (r: seq<bool>)
    ensures |r| == |t.wheels.tyreFlags|
  {
    var fs := t.wheels.tyreFlags;
    seq(|fs|, i requires 0 <= i < |fs| => Bit(fs[i], 0))
  }

  function TyreInflated(t: TelemetryDataPacket): (r: seq<bool>)
    ensures |r| == |t.wheels.tyreFlags|
  {
    var fs := t.wheels.tyreFlags;
    seq(|fs|, i requires 0 <= i < |fs| => Bit(fs[i], 1))
  }

  function TyreIsOnGround(t: TelemetryDataPacket): (r: seq<bool>)
    ensures |r| == |t.wheels.tyreFlags|
  {
    var fs := t.wheels.tyreFlags;
    seq(|fs|, i requires 0 <= i < |fs| => Bit(fs[i], 2))
  }

  /** `(is_on_ground << 2) + (inflated << 1) + attached`. */
  function PackTyreFlags(attached: bool, inflated: bool, isOnGround: bool): (b: nat)
    ensures b < 8
  {
    FlagValue(isOnGround) * 4 + FlagValue(inflated) * 2 + FlagValue(attached)
  }

  lemma TyreFlagOfPacked(x: nat, attached: bool, inflated: bool, isOnGround: bool, unused: nat)
    requires x == PackTyreFlags(attached, inflated, isOnGround) + 8 * unused
    ensures Bit(x, 0) == attached && Bit(x, 1) == inflated && Bit(x, 2) == isOnGround
  {
    ThreeLowBits(x, FlagValue(attached), FlagValue(inflated), FlagValue(isOnGround), unused);
  }

  lemma TyreFlagRebuild(x: byte)
    ensures x == PackTyreFlags(Bit(x, 0), Bit(x, 1), Bit(x, 2)) + 8 * Bits(x, 3, 5)
  {
    assert Pow2(1) == 2 && Pow2(8) == 256;
    WholeField(x, 8);
    FieldSplit(x, 0, 1, 7);
    FieldSplit(x, 1, 1, 6);
    FieldSplit(x, 2, 1, 5);
  }

  /** The three per-tyre lists read back what each tyre's flags byte was built
      from, whatever its five unused bits hold. */
  lemma TyreFlagsOfPacked(t: TelemetryDataPacket, attached: seq<bool>, inflated: seq<bool>,
                          isOnGround: seq<bool>, unused: seq<nat>)
    requires |attached| == |inflated| == |isOnGround| == |unused| == |t.wheels.tyreFlags|
    requires forall i | 0 <= i < |t.wheels.tyreFlags| ::
      t.wheels.tyreFlags[i] == PackTyreFlags(attached[i], inflated[i], isOnGround[i]) + 8 * unused[i]
    ensures TyreAttached(t) == attached
    ensures TyreInflated(t) == inflated
    ensures TyreIsOnGround(t) == isOnGround
  {
    forall i | 0 <= i < |t.wheels.tyreFlags|
      ensures TyreAttached(t)[i] == attached[i]
      ensures TyreInflated(t)[i] == inflated[i]
      ensures TyreIsOnGround(t)[i] == isOnGround[i]
    {
      TyreFlagOfPacked(t.wheels.tyreFlags[i], attached[i], inflated[i], isOnGround[i], unused[i]);
    }
  }

  /** Each tyre's flags byte is its three properties plus the bits above them. */
  lemma TyreFlagsRebuild(t: TelemetryDataPacket, i: nat)
    requires i < |t.wheels.tyreFlags|
    ensures t.wheels.tyreFlags[i]
         == PackTyreFlags(TyreAttached(t)[i], TyreInflated(t)[i], TyreIsOnGround(t)[i])
          + 8 * Bits(t.wheels.tyreFlags[i], 3, 5)
  {
    TyreFlagRebuild(t.wheels.tyreFlags[i]);
  }

  // ---------------------------------------------------------------------------
  // Joypad buttons
  // ---------------------------------------------------------------------------

  /** The digits of `x` padded with zeros to `n` entries. */
  function ButtonList(x: nat, n: nat): (r: seq<nat>)
    requires 1 <= n && x < Pow2(n)
    ensures r == BitList(x, n)
  {
    PaddedDigitsAreBits(x, n);
    PadZeros(BinDigits(x), n)
  }

  /** `joypad_buttons`: the sixteen digits of `_joypad`, then four from the high
      nibble of `_d_pad`, then four from the high nibble of `_crash_state`. */
  function JoypadButtons(t: TelemetryDataPacket): (r: seq<nat>)
    ensures |r| == 24
  {
    assert Pow2(4) == 16 && Pow2(16) == 65536;
    ButtonList(t.controls.joypad, 16)
      + ButtonList(HighNibble(t.dPad), 4)
      + ButtonList(HighNibble(t.car.crashState), 4)
  }

  /** The button list is exactly the bits of the three fields it reads. */
  lemma JoypadButtonsAreBits(t: TelemetryDataPacket)
    ensures JoypadButtons(t)
         == BitList(t.controls.joypad, 16) + BitList(Bits(t.dPad, 4, 4), 4) + BitList(Bits(t.car.crashState, 4, 4), 4)
  {
    assert Pow2(4) == 16 && Pow2(16) == 65536;
  }

  /** Joypad, d-pad and crash bytes built as the tests build them give back the
      24 buttons, and the crash state in the low nibble beside them; the low
      nibble of the d-pad byte is not read. */
  lemma JoypadButtonsOfPacked(t: TelemetryDataPacket, buttons: seq<nat>, dPadLow: nat, crashState: nat)
    requires |buttons| == 24 && IsBitList(buttons)
    requires dPadLow < 16 && crashState < 16
    requires t.controls.joypad == PackBits(buttons[..16])
    requires PackBits(buttons[16..20]) < 16 && t.dPad == PackNibbles(PackBits(buttons[16..20]), dPadLow)
    requires PackBits(buttons[20..]) < 16 && t.car.crashState == PackNibbles(PackBits(buttons[20..]), crashState)
    ensures JoypadButtons(t) == buttons
    ensures CrashState(t) == crashState
  {
    var b1, b2, b3 := buttons[..16], buttons[16..20], buttons[20..];
    SplitThree(buttons, 16, 20);
    ButtonsOfParts(t, b1, b2, b3);
  }

  /** The button list is the three bit lists the joypad word and the two
      high nibbles were packed from. */
  lemma ButtonsOfParts(t: TelemetryDataPacket, b1: seq<nat>, b2: seq<nat>, b3: seq<nat>)
    requires |b1| == 16 && |b2| == 4 && |b3| == 4
    requires IsBitList(b1) && IsBitList(b2) && IsBitList(b3)
    requires t.controls.joypad == PackBits(b1)
    requires HighNibble(t.dPad) == PackBits(b2) && HighNibble(t.car.crashState) == PackBits(b3)
    ensures JoypadButtons(t) == b1 + b2 + b3
  {
    ButtonListOfPacked(b1);
    ButtonListOfPacked(b2);
    ButtonListOfPacked(b3);
  }

  /** A packed bit list, listed as buttons, is the bit list. */
  lemma ButtonListOfPacked(bs: seq<nat>)
    requires 1 <= |bs| && IsBitList(bs)
    ensures PackBits(bs) < Pow2(|bs|) && ButtonList(PackBits(bs), |bs|) == bs
  {
    BitListOfPackBits(bs);
  }

  lemma SplitThree<T>(s: seq<T>, i: nat, j: nat)
    requires i <= j <= |s|
    ensures s == s[..i] + s[i..j] + s[j..]
  {
  }
}
