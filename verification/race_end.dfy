/** The forward pass of `RaceData._build_descriptor`, which finds the packet
    whose hash becomes `race_end`.

    The pass alternates two loops: one skips packets until a telemetry
    packet with `race_state == 3` (finished) opens a run, the other walks
    the run, remembering its latest telemetry packet, until a telemetry
    packet with any other `race_state` closes it. Packets of the other
    layouts neither open nor close a run. When the stream runs out inside a
    run, the last packet of the stream is remembered instead, whatever its
    layout.
 */
module RaceEnd {
  import opened Results
  import opened RaceStream

  /** `packet.packet_type == 0 and packet.race_state == 3`. */
  predicate IsFinished(p: StreamPacket) {
    IsTelemetry(p) && p.raceState == RaceFinished
  }

  /** `packet.packet_type == 0 and packet.race_state != 3`. */
  predicate EndsRun(p: StreamPacket) {
    IsTelemetry(p) && p.raceState != RaceFinished
  }

  /** Packet `k` lies in a finished run: a finished packet opened a run at
      or before `k` and no run-ending packet came after it up to `k`. */
  predicate InRun(s: seq<StreamPacket>, k: nat)
    requires k < |s|
    decreases k
  {
    IsFinished(s[k]) || (k > 0 && !EndsRun(s[k]) && InRun(s, k - 1))
  }

  /** The last finished packet before index `n`, if any. */
  function LastFinished(s: seq<StreamPacket>, n: nat): (r: Option<nat>)
    requires n <= |s|
    ensures r.Some? ==> r.value < n && IsFinished(s[r.value])
    ensures r.Some? ==> forall k | r.value < k < n :: !IsFinished(s[k])
    ensures r.None? <==> forall k | 0 <= k < n :: !IsFinished(s[k])
    decreases n
  {
    if n == 0 then None
    else if IsFinished(s[n - 1]) then Some(n - 1)
    else LastFinished(s, n - 1)
  }

  /** The packet the pass remembers, by its meaning: the last packet of the
      stream when the stream ends inside a finished run, otherwise the last
      finished packet, and `None` (standing for `hash(None)`) when there is
      none. */
  function RaceEndSpec(s: seq<StreamPacket>): Option<nat> {
    if |s| > 0 && InRun(s, |s| - 1) then Some(|s| - 1) else LastFinished(s, |s|)
  }

  /** "Exhaust packets prior to RACE_FINISHED", from packet `i`, with
      `seen` the remembered packet. */
  function Before(s: seq<StreamPacket>, i: nat, seen: Option<nat>): (r: Option<nat>)
    requires i <= |s|
    requires i == 0 || !InRun(s, i - 1)
    requires seen == LastFinished(s, i)
    ensures r == RaceEndSpec(s)
    decreases |s| - i, 1
  {
    if i == |s| then seen
    else if IsFinished(s[i]) then Through(s, i, seen)
    else Before(s, i + 1, seen)
  }

  /** "Exhaust packets through RACE_FINISHED", at packet `c` inside a run. */
  function Through(s: seq<StreamPacket>, c: nat, seen: Option<nat>): (r: Option<nat>)
    requires c < |s| && InRun(s, c)
    requires seen == LastFinished(s, c)
    ensures r == RaceEndSpec(s)
    decreases |s| - c, 0
  {
    var kept := if IsTelemetry(s[c]) then Some(c) else seen;
    if c + 1 == |s| then Some(c)
    else if EndsRun(s[c + 1]) then Before(s, c + 2, kept)
    else Through(s, c + 1, kept)
  }

  /** Inside a run every telemetry packet is a finished one. */
  lemma RunTelemetryFinished(s: seq<StreamPacket>, c: nat)
    requires c < |s| && InRun(s, c) && IsTelemetry(s[c])
    ensures IsFinished(s[c])
  {
  }

  /** A run was opened by a finished packet at or before its every packet. */
  lemma {:induction false} RunHasFinished(s: seq<StreamPacket>, k: nat)
    requires k < |s| && InRun(s, k)
    ensures LastFinished(s, k + 1).Some?
    decreases k
  {
    if !IsFinished(s[k]) {
      RunHasFinished(s, k - 1);
      assert LastFinished(s, k + 1) == LastFinished(s, k);
    }
  }

  /** The forward pass: the index of the packet whose hash is `race_end`. */
  function ForwardScan(s: seq<StreamPacket>): (r: Option<nat>)
    ensures r == RaceEndSpec(s)
  {
    Before(s, 0, None)
  }

  /** What the pass finds: `None` exactly when no packet is finished; the
      last packet when the stream ends inside a run; otherwise the last
      finished packet. */
  lemma ForwardScanFinds(s: seq<StreamPacket>)
    ensures ForwardScan(s).None? <==> forall k | 0 <= k < |s| :: !IsFinished(s[k])
    ensures |s| > 0 && InRun(s, |s| - 1) ==> ForwardScan(s) == Some(|s| - 1)
    ensures ForwardScan(s).Some? && !InRun(s, |s| - 1) ==>
              IsFinished(s[ForwardScan(s).value]) &&
              forall k | ForwardScan(s).value < k < |s| :: !IsFinished(s[k])
  {
    if |s| > 0 && InRun(s, |s| - 1) {
      RunHasFinished(s, |s| - 1);
    }
  }

  /** `race_end` is the remembered packet's hash; `None` stands for
      `hash(None)`, which no packet's hash equals. */
  function RaceEndHash(s: seq<StreamPacket>): (h: Option<int>)
    ensures h.None? <==> forall k | 0 <= k < |s| :: !IsFinished(s[k])
    ensures h.Some? ==> exists k | 0 <= k < |s| :: s[k].hash == h.value && RaceEndSpec(s) == Some(k)
  {
    ForwardScanFinds(s);
    match ForwardScan(s)
    case None => None
    case Some(e) => Some(s[e].hash)
  }

  /** A racing packet, a finished packet repeated `n` times, then a packet
      that is no longer finished: the pass takes the last of the repeats,
      however many there are. */
  lemma RepeatedFinishedKeepsLast(racing: StreamPacket, finished: StreamPacket, after: StreamPacket, n: nat)
    requires IsTelemetry(racing) && racing.raceState == RaceRacing
    requires IsFinished(finished) && EndsRun(after) && n > 0
    ensures ForwardScan([racing] + seq(n, _ => finished) + [after]) == Some(n)
  {
    var s := [racing] + seq(n, _ => finished) + [after];
    assert s[n] == finished && s[n + 1] == after;
    assert LastFinished(s, n + 2) == Some(n);
  }
}
