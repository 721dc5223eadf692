/** The reverse pass of `RaceData._build_descriptor`, which finds
    `race_finish` and a first `race_start`, reading the stream from its last
    packet backwards.

    Indices here are positions in the reversed stream `r`; `RaceDescriptor`
    restates the results in capture order.

    The pass skips to the packet whose hash is `race_end`, then to the next
    telemetry packet that is racing (`race_state == 2`, the last lap in
    capture order: `race_finish`), then to the next one on the grid
    (`race_state` 0 or 1, the green flag). From there it walks on,
    remembering the latest telemetry packet, until a telemetry packet shows
    a session that is not a race (`session_state != 5`) or a game that is
    not playing (`game_state != 2`); the packet remembered then is the
    first `race_start`.
 */
module RaceStart {
  import opened Results
  import opened RaceStream

  /** `packet.packet_type == 0 and packet.race_state == 2`. */
  predicate IsRacing(p: StreamPacket) {
    IsTelemetry(p) && p.raceState == RaceRacing
  }

  /** `packet.packet_type == 0 and (race_state == 0 or race_state == 1)`. */
  predicate IsOnGrid(p: StreamPacket) {
    IsTelemetry(p) && (p.raceState == RaceInvalid || p.raceState == RaceNotStarted)
  }

  /** `packet.packet_type == 0 and (session_state != 5 or game_state != 2)`:
      the packet that stops the walk back from the green flag. */
  predicate LeavesRace(p: StreamPacket) {
    IsTelemetry(p) && (p.sessionState != SessionRace || p.gameState != GameInGamePlaying)
  }

  /** The first packet after `p` that stops the walk, or `|r|` when none
      does. */
  function StopAfter(r: seq<StreamPacket>, p: nat): (b: nat)
    requires p < |r|
    ensures p < b <= |r|
    ensures b < |r| ==> LeavesRace(r[b])
    ensures forall k | p < k < b :: !LeavesRace(r[k])
    decreases |r| - p
  {
    if p + 1 == |r| then |r|
    else if LeavesRace(r[p + 1]) then p + 1
    else StopAfter(r, p + 1)
  }

  /** The walk from the green flag: at packet `p`, with `seen` the latest
      telemetry packet so far. Its result is the last telemetry packet
      before the walk stops. */
  function WalkFrom(r: seq<StreamPacket>, p: nat, seen: nat): (res: nat)
    requires seen <= p < |r| && IsTelemetry(r[seen])
    requires forall k | seen < k < p :: !IsTelemetry(r[k])
    ensures seen <= res < StopAfter(r, p) && IsTelemetry(r[res])
    ensures forall k | res < k < StopAfter(r, p) :: !IsTelemetry(r[k])
    decreases |r| - p
  {
    var kept := if IsTelemetry(r[p]) then p else seen;
    if p + 1 == |r| then kept
    else if LeavesRace(r[p + 1]) then kept
    else WalkFrom(r, p + 1, kept)
  }

  /** The landmarks of the reverse pass, as positions in `r`. */
  datatype ReverseMarks = ReverseMarks(end: nat, finish: nat, green: nat, start: nat)

  predicate IsEndHash(endHash: Option<int>, p: StreamPacket) {
    endHash == Some(p.hash)
  }

  /** The test of the first skip, as the predicate `FindFrom` takes. */
  function EndTest(endHash: Option<int>): StreamPacket -> bool {
    (p: StreamPacket) => IsEndHash(endHash, p)
  }

  /** `e` is the first packet of `r` with the hash `endHash`. */
  predicate FirstEnd(r: seq<StreamPacket>, endHash: Option<int>, e: nat)
    requires e < |r|
  {
    IsEndHash(endHash, r[e]) && forall k | 0 <= k < e :: !IsEndHash(endHash, r[k])
  }

  /** `f` is the first racing packet after `e`. */
  predicate FirstRacing(r: seq<StreamPacket>, e: nat, f: nat)
    requires f < |r|
  {
    IsRacing(r[f]) && forall k | e < k < f :: !IsRacing(r[k])
  }

  /** `g` is the first packet on the grid after `f`. */
  predicate FirstOnGrid(r: seq<StreamPacket>, f: nat, g: nat)
    requires g < |r|
  {
    IsOnGrid(r[g]) && forall k | f < k < g :: !IsOnGrid(r[k])
  }

  /** `st` is the last telemetry packet before the walk from `g` stops. */
  predicate LastBeforeStop(r: seq<StreamPacket>, g: nat, st: nat)
    requires g <= st < |r|
  {
    IsTelemetry(r[st]) && st < StopAfter(r, g) &&
    forall k | st < k < StopAfter(r, g) :: !IsTelemetry(r[k])
  }

  /** The marks are where the reverse pass stops, step by step. */
  predicate PassMarks(r: seq<StreamPacket>, endHash: Option<int>, m: ReverseMarks) {
    m.end < m.finish < m.green <= m.start < |r| &&
    FirstEnd(r, endHash, m.end) && FirstRacing(r, m.end, m.finish) &&
    FirstOnGrid(r, m.finish, m.green) && LastBeforeStop(r, m.green, m.start)
  }

  /** No packet with the hash `endHash` is followed by a racing packet that is
      followed in turn by one on the grid. */
  predicate NoGreenAfterEnd(r: seq<StreamPacket>, endHash: Option<int>) {
    forall a | 0 <= a < |r| && IsEndHash(endHash, r[a]) ::
      forall b | a < b < |r| && IsRacing(r[b]) ::
        forall g | b < g < |r| :: !IsOnGrid(r[g])
  }

  /** The reverse pass over `r`, for the `race_end` hash `endHash` (`None`
      for `hash(None)`, which matches no packet). Each skip raises
      `StopIteration` when the stream runs out. */
  function ReversePass(r: seq<StreamPacket>, endHash: Option<int>): (m: Result<ReverseMarks>)
    ensures m.Err? ==> m.error == StopIteration
    ensures m.Ok? ==> PassMarks(r, endHash, m.value)
  {
    var end :- FindFrom(r, 0, EndTest(endHash));
    var finish :- FindFrom(r, end + 1, IsRacing);
    var green :- FindFrom(r, finish + 1, IsOnGrid);
    Ok(ReverseMarks(end, finish, green, WalkFrom(r, green, green)))
  }

  /** The pass fails exactly when no grid packet follows a racing packet
      that follows a packet with the `race_end` hash. */
  lemma ReversePassFails(r: seq<StreamPacket>, endHash: Option<int>)
    ensures ReversePass(r, endHash).Err? <==> NoGreenAfterEnd(r, endHash)
  {
    FoundMarksAreWitnesses(r, endHash);
    WitnessesAreFound(r, endHash);
  }

  lemma FoundMarksAreWitnesses(r: seq<StreamPacket>, endHash: Option<int>)
    ensures ReversePass(r, endHash).Ok? ==> !NoGreenAfterEnd(r, endHash)
  {
    if ReversePass(r, endHash).Ok? {
      var m := ReversePass(r, endHash).value;
      assert IsEndHash(endHash, r[m.end]) && IsRacing(r[m.finish]) && IsOnGrid(r[m.green]);
    }
  }

  lemma WitnessesAreFound(r: seq<StreamPacket>, endHash: Option<int>)
    ensures !NoGreenAfterEnd(r, endHash) ==> ReversePass(r, endHash).Ok?
  {
    if !NoGreenAfterEnd(r, endHash) {
      var a, b, g :| 0 <= a < b < g < |r| && IsEndHash(endHash, r[a]) && IsRacing(r[b]) && IsOnGrid(r[g]);
      WitnessFound(r, endHash, a, b, g);
    }
  }

  lemma WitnessFound(r: seq<StreamPacket>, endHash: Option<int>, a: nat, b: nat, g: nat)
    requires a < b < g < |r| && IsEndHash(endHash, r[a]) && IsRacing(r[b]) && IsOnGrid(r[g])
    ensures ReversePass(r, endHash).Ok?
  {
    assert EndTest(endHash)(r[a]);
    FindFromFinds(r, 0, EndTest(endHash), a);
    var e := FindFrom(r, 0, EndTest(endHash)).value;
    FindFromFinds(r, e + 1, IsRacing, b);
    var f := FindFrom(r, e + 1, IsRacing).value;
    FindFromFinds(r, f + 1, IsOnGrid, g);
    PassSucceeds(r, endHash, e, f, FindFrom(r, f + 1, IsOnGrid).value);
  }

  /** Three successful skips make a successful pass. */
  lemma PassSucceeds(r: seq<StreamPacket>, endHash: Option<int>, e: nat, f: nat, g: nat)
    requires FindFrom(r, 0, EndTest(endHash)) == Ok(e)
    requires FindFrom(r, e + 1, IsRacing) == Ok(f)
    requires FindFrom(r, f + 1, IsOnGrid) == Ok(g)
    ensures ReversePass(r, endHash).Ok?
  {
  }
}
