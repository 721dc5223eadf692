/** The packet stream the race-boundary scans read: each decoded packet seen
    only through what the scans ask of it, in capture order.

    A telemetry packet keeps its hash, its header type and the state fields
    and participant slots the scans test; the two participant layouts keep
    only their hash, since the scans never read anything else from them
    except by accident (the population scan reads `participant_info`, which
    they do not have).
 */
module RaceStream {
  import opened Results
  import Packet
  import Telemetry
  import TelemetryFields
  import ParticipantInfoFields

  /** `race_state` values the scans test. */
  const RaceInvalid: nat := 0
  const RaceNotStarted: nat := 1
  const RaceRacing: nat := 2
  const RaceFinished: nat := 3

  /** `session_state` of a race session and `game_state` while playing. */
  const SessionRace: nat := 5
  const GameInGamePlaying: nat := 2

  /** One participant slot as the population scan reads it. */
  datatype Slot = Slot(racePosition: nat, sector: nat)

  datatype StreamPacket =
    | Telemetry(hash: int, packetType: nat, raceState: nat, sessionState: nat, gameState: nat,
                numParticipants: int, slots: seq<Slot>)
    | Other(hash: int)

  /** A telemetry packet decoded from bytes, seen by the scans. */
  function TelemetryView(t: Telemetry.TelemetryDataPacket): (p: StreamPacket)
    ensures p.Telemetry? && p.hash == t.hash && p.packetType == t.header.rawType % 4
    ensures p.raceState == t.state.raceStateFlags % 8
    ensures p.gameState == t.state.gameSessionState % 16 && p.sessionState == t.state.gameSessionState / 16
    ensures p.numParticipants == t.state.numParticipants && |p.slots| == |t.participantInfo|
    ensures forall i | 0 <= i < |p.slots| ::
              p.slots[i] == Slot(t.participantInfo[i].racePositionByte % 128, t.participantInfo[i].sectorByte % 8)
  {
    Telemetry(t.hash, Packet.PacketType(t.header), TelemetryFields.RaceState(t),
              TelemetryFields.SessionState(t), TelemetryFields.GameState(t), t.state.numParticipants,
              seq(|t.participantInfo|, i requires 0 <= i < |t.participantInfo| =>
                Slot(ParticipantInfoFields.RacePosition(t.participantInfo[i]),
                     ParticipantInfoFields.Sector(t.participantInfo[i]))))
  }

  /** `packet.packet_type == 0`: the test every scan makes before reading a
      telemetry field. */
  predicate IsTelemetry(p: StreamPacket) {
    p.Telemetry? && p.packetType == 0
  }

  /** The stream read with `reverse=True`. */
  function Reverse(s: seq<StreamPacket>): (r: seq<StreamPacket>)
    ensures |r| == |s| && forall i | 0 <= i < |s| :: r[i] == s[|s| - 1 - i]
  {
    seq(|s|, i requires 0 <= i < |s| => s[|s| - 1 - i])
  }

  lemma ReverseReverse(s: seq<StreamPacket>)
    ensures Reverse(Reverse(s)) == s
  {
    var rr := Reverse(Reverse(s));
    forall i | 0 <= i < |s| ensures rr[i] == s[i] {
      assert rr[i] == Reverse(s)[|s| - 1 - i];
    }
  }

  /** `while True: packet = next(...); if cond(packet): break`, started at
      index `from`: the first packet there or later that meets `cond`, or
      `StopIteration` when the stream runs out first. */
  function FindFrom(s: seq<StreamPacket>, from: nat, cond: StreamPacket -> bool): (r: Result<nat>)
    ensures r.Ok? ==> from <= r.value < |s| && cond(s[r.value])
    ensures r.Ok? ==> forall k | from <= k < r.value :: !cond(s[k])
    ensures r.Err? <==> forall k | from <= k < |s| :: !cond(s[k])
    ensures r.Err? ==> r.error == StopIteration
    decreases |s| - from
  {
    if from >= |s| then Err(StopIteration)
    else if cond(s[from]) then Ok(from)
    else FindFrom(s, from + 1, cond)
  }

  /** A skip finds a packet that meets its test, at or before that packet. */
  lemma FindFromFinds(s: seq<StreamPacket>, from: nat, cond: StreamPacket -> bool, k: nat)
    requires from <= k < |s| && cond(s[k])
    ensures FindFrom(s, from, cond).Ok? && FindFrom(s, from, cond).value <= k
  {
  }

  /** `RaceData._to_hash`: the first packet of the stream whose hash is
      `target`, or `StopIteration` when none has it. */
  function ToHash(s: seq<StreamPacket>, target: int): (r: Result<nat>)
    ensures r.Ok? ==> r.value < |s| && s[r.value].hash == target
    ensures r.Ok? ==> forall k | 0 <= k < r.value :: s[k].hash != target
    ensures r.Err? <==> forall k | 0 <= k < |s| :: s[k].hash != target
    ensures r.Err? ==> r.error == StopIteration
  {
    FindFrom(s, 0, (p: StreamPacket) => p.hash == target)
  }

  /** `_to_hash` finds every hash that occurs, at or before where it occurs. */
  lemma ToHashFinds(s: seq<StreamPacket>, k: nat)
    requires k < |s|
    ensures ToHash(s, s[k].hash).Ok? && ToHash(s, s[k].hash).value <= k
  {
  }
}
