/** The derived properties of a telemetry `ParticipantInfo` block: the race
    position and laps bytes (seven-bit counts under an eighth flag bit), the
    sector byte (sector, two position refinements and the class flag), and the
    world position refined to quarter units.
 */
module ParticipantInfoFields {
  import opened Bytes
  import opened Telemetry

  /** The stored bytes of the single-precision float -123.0: sign 1, biased
      exponent 133, fraction 0x760000, that is 0xC2F60000, low byte first. */
  const Minus123: F32 := [0x00, 0x00, 0xF6, 0xC2]

  /** `last_sector_time == -123`: the float read from the four bytes is exactly
      -123.0, and only one bit pattern has that value. */
  predicate IsMinus123(w: F32) {
    w == Minus123
  }

  // ---------------------------------------------------------------------------
  // A seven-bit count under a flag bit
  // ---------------------------------------------------------------------------

  /** `(flag << 7) + count`, how a test builds the race-position and laps bytes. */
  function PackFlagged(flag: bool, count: nat): (b: byte)
    requires count < 128
    ensures Bits(b, 0, 7) == count && Bit(b, 7) == flag
  {
    assert Pow2(7) == 128 && Pow2(1) == 2;
    PeelField(count, 7, FlagValue(flag), 0, 1);
    WholeField(FlagValue(flag), 1);
    count + 128 * FlagValue(flag)
  }

  /** Any byte is its low seven bits under its top bit. */
  lemma FlaggedRebuild(b: byte)
    ensures PackFlagged(Bit(b, 7), Bits(b, 0, 7)) == b
  {
    assert b == Bits(b, 0, 7) + 128 * Bits(b, 7, 1) by {
      assert Pow2(7) == 128 && Pow2(8) == 256;
      RebuildFields(b, 7, 1);
    }
  }

  // ---------------------------------------------------------------------------
  // Race position and laps
  // ---------------------------------------------------------------------------

  /** `race_position`: `_race_position & 0b01111111`. */
  function RacePosition(p: ParticipantInfo): (r: nat)
    ensures r < 128 && r == p.racePositionByte % 128
  {
    assert Pow2(7) == 128;
    LowBits(p.racePositionByte, 7);
    Bits(p.racePositionByte, 0, 7)
  }

  /** `is_active`: bit 7 of `_race_position`, set exactly in the bytes from
      `0b10000000` up. */
  function IsActive(p: ParticipantInfo): (r: bool)
    ensures r <==> p.racePositionByte >= 128
  {
    BitIsMask(p.racePositionByte, 7);
    assert Pow2(7) == 128 && Pow2(8) == 256;
    Bit(p.racePositionByte, 7)
  }

  /** `laps_completed`: `_laps_completed & 0b01111111`. */
  function LapsCompleted(p: ParticipantInfo): (r: nat)
    ensures r < 128 && r == p.lapsCompletedByte % 128
  {
    assert Pow2(7) == 128;
    LowBits(p.lapsCompletedByte, 7);
    Bits(p.lapsCompletedByte, 0, 7)
  }

  /** `sector`: `_sector & 0b00000111`. */
  function Sector(p: ParticipantInfo): (r: nat)
    ensures r < 8 && r == p.sectorByte % 8
  {
    assert Pow2(3) == 8;
    LowBits(p.sectorByte, 3);
    Bits(p.sectorByte, 0, 3)
  }

  /** `same_class`: bit 7 of `_sector`, set exactly in the bytes from
      `0b10000000` up. */
  function SameClass(p: ParticipantInfo): (r: bool)
    ensures r <==> p.sectorByte >= 128
  {
    BitIsMask(p.sectorByte, 7);
    assert Pow2(7) == 128 && Pow2(8) == 256;
    Bit(p.sectorByte, 7)
  }

  /** The participant is at the start of a race: in sector 3 with no previous
      sector time, which the game reports as -123. */
  predicate AtRaceStart(p: ParticipantInfo) {
    Sector(p) == 3 && IsMinus123(p.lastSectorTime)
  }

  /** `lap_invalidated`: bit 7 of `_laps_completed`, except that the game's
      invalid flag at the race start is reported as not invalidated. The source
      returns the integer 0 there, which is false in every test of truth and
      equal to `False`; it is modelled as `false`. */
  function LapInvalidated(p: ParticipantInfo): (r: bool)
    ensures r <==> p.lapsCompletedByte >= 128 && !(p.sectorByte % 8 == 3 && p.lastSectorTime == Minus123)
  {
    BitIsMask(p.lapsCompletedByte, 7);
    assert Pow2(3) == 8 && Pow2(7) == 128 && Pow2(8) == 256;
    Bit(p.lapsCompletedByte, 7) && !AtRaceStart(p)
  }

  /** The race-position byte built from a position and an active flag reads both back. */
  lemma RacePositionOfPacked(p: ParticipantInfo, isActive: bool, racePosition: nat)
    requires racePosition < 128 && p.racePositionByte == PackFlagged(isActive, racePosition)
    ensures RacePosition(p) == racePosition && IsActive(p) == isActive
  {
  }

  /** `race_position` and `is_active` split the byte without loss. */
  lemma RacePositionRebuild(p: ParticipantInfo)
    ensures PackFlagged(IsActive(p), RacePosition(p)) == p.racePositionByte
  {
    FlaggedRebuild(p.racePositionByte);
  }

  /** The laps byte built from a count and an invalid flag reads the count back,
      and the flag back everywhere except at the race start, where no lap is
      reported invalidated. */
  lemma LapsOfPacked(p: ParticipantInfo, lapInvalidated: bool, lapsCompleted: nat)
    requires lapsCompleted < 128 && p.lapsCompletedByte == PackFlagged(lapInvalidated, lapsCompleted)
    ensures LapsCompleted(p) == lapsCompleted
    ensures LapInvalidated(p) == (lapInvalidated && !AtRaceStart(p))
    ensures !AtRaceStart(p) ==> LapInvalidated(p) == lapInvalidated
  {
  }

  /** At the race start a lap is never reported invalidated, whatever the laps byte holds. */
  lemma RaceStartLapNotInvalidated(p: ParticipantInfo)
    requires Bits(p.sectorByte, 0, 3) == 3 && p.lastSectorTime == Minus123
    ensures !LapInvalidated(p)
  {
  }

  /** The laps byte is `laps_completed` under the raw invalid flag; the flag is
      what `lap_invalidated` reports away from the race start. */
  lemma LapsRebuild(p: ParticipantInfo)
    ensures PackFlagged(Bit(p.lapsCompletedByte, 7), LapsCompleted(p)) == p.lapsCompletedByte
    ensures !AtRaceStart(p) ==> LapInvalidated(p) == Bit(p.lapsCompletedByte, 7)
  {
    FlaggedRebuild(p.lapsCompletedByte);
  }

  // ---------------------------------------------------------------------------
  // Sector byte
  // ---------------------------------------------------------------------------

  /** `(same_class << 7) + (z_acc << 5) + (x_acc << 3) + sector`. */
  function PackSectorByte(sector: nat, xQuarters: nat, zQuarters: nat, sameClass: bool): (b: byte)
    requires sector < 8 && xQuarters < 4 && zQuarters < 4
  {
    FlagValue(sameClass) * 128 + zQuarters * 32 + xQuarters * 8 + sector
  }

  lemma SectorByteOfPacked(x: nat, sector: nat, xQuarters: nat, zQuarters: nat, sameClass: bool)
    requires sector < 8 && xQuarters < 4 && zQuarters < 4
    requires x == PackSectorByte(sector, xQuarters, zQuarters, sameClass)
    ensures Bits(x, 0, 3) == sector && Bits(x, 3, 2) == xQuarters && Bits(x, 5, 2) == zQuarters
    ensures Bit(x, 7) == sameClass
  {
    var s := FlagValue(sameClass);
    assert Pow2(0) == 1 && Pow2(1) == 2 && Pow2(2) == 4 && Pow2(3) == 8;
    assert Pow2(5) == 32 && Pow2(7) == 128;
    assert Bits(x, 0, 3) == sector by {
      DivModUnique(x, 8, zQuarters * 4 + xQuarters + s * 16, sector);
    }
    assert Bits(x, 3, 2) == xQuarters by {
      DivModUnique(x, 8, zQuarters * 4 + xQuarters + s * 16, sector);
      DivModUnique(zQuarters * 4 + xQuarters + s * 16, 4, zQuarters + s * 4, xQuarters);
    }
    assert Bits(x, 5, 2) == zQuarters by {
      DivModUnique(x, 32, zQuarters + s * 4, xQuarters * 8 + sector);
      DivModUnique(zQuarters + s * 4, 4, s, zQuarters);
    }
    assert Bits(x, 7, 1) == s by {
      DivModUnique(x, 128, s, zQuarters * 32 + xQuarters * 8 + sector);
    }
  }

  lemma SectorByteRebuild(x: byte)
    ensures x == PackSectorByte(Bits(x, 0, 3), Bits(x, 3, 2), Bits(x, 5, 2), Bit(x, 7))
  {
    assert Pow2(1) == 2 && Pow2(2) == 4 && Pow2(3) == 8 && Pow2(8) == 256;
    WholeField(x, 8);
    FieldSplit(x, 0, 3, 5);
    FieldSplit(x, 3, 2, 3);
    FieldSplit(x, 5, 2, 1);
  }

  /** The sector byte built from a sector, the two position refinements and the
      class flag reads all four back. */
  lemma SectorOfPacked(p: ParticipantInfo, sector: nat, xQuarters: nat, zQuarters: nat, sameClass: bool)
    requires sector < 8 && xQuarters < 4 && zQuarters < 4
    requires p.sectorByte == PackSectorByte(sector, xQuarters, zQuarters, sameClass)
    ensures Sector(p) == sector && SameClass(p) == sameClass
    ensures Bits(p.sectorByte, 3, 2) == xQuarters && Bits(p.sectorByte, 5, 2) == zQuarters
  {
    SectorByteOfPacked(p.sectorByte, sector, xQuarters, zQuarters, sameClass);
  }

  /** `sector`, the two refinements and `same_class` split the byte without loss. */
  lemma SectorRebuild(p: ParticipantInfo)
    ensures PackSectorByte(Sector(p), Bits(p.sectorByte, 3, 2), Bits(p.sectorByte, 5, 2), SameClass(p))
         == p.sectorByte
  {
    SectorByteRebuild(p.sectorByte);
  }

  // ---------------------------------------------------------------------------
  // World position
  // ---------------------------------------------------------------------------

  /** `world_position` in quarter units: the stored whole x and z each gain a
      count of quarters from the sector byte (bits 3-4 for x, bits 5-6 for z);
      y is whole. A 16-bit integer plus a multiple of 0.25 is exact as a
      double, so quarter units lose nothing. */
  function WorldPosition(p: ParticipantInfo): (r: seq<int>)
    requires |p.worldPosition| == 3
    ensures |r| == 3
    ensures r[0] / 4 == p.worldPosition[0] && r[1] / 4 == p.worldPosition[1] && r[2] / 4 == p.worldPosition[2]
    ensures r[1] % 4 == 0
  {
    assert Pow2(2) == 4;
    var x: int := p.worldPosition[0];
    var y: int := p.worldPosition[1];
    var z: int := p.worldPosition[2];
    [4 * x + Bits(p.sectorByte, 3, 2), 4 * y, 4 * z + Bits(p.sectorByte, 5, 2)]
  }

  /** A position in quarter units, stored as whole parts (rounded down) and
      quarters in the sector byte, is read back exactly. The sector and class
      flag stored beside the quarters are read back too. */
  lemma WorldPositionRoundTrip(p: ParticipantInfo, pos: seq<int>, sector: nat, sameClass: bool)
    requires |pos| == 3 && pos[1] % 4 == 0 && sector < 8
    requires p.worldPosition == [pos[0] / 4, pos[1] / 4, pos[2] / 4]
    requires p.sectorByte == PackSectorByte(sector, pos[0] % 4, pos[2] % 4, sameClass)
    ensures WorldPosition(p) == pos
    ensures Sector(p) == sector && SameClass(p) == sameClass
  {
    SectorOfPacked(p, sector, pos[0] % 4, pos[2] % 4, sameClass);
  }
}
