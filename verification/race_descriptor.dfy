/** `RaceData._build_descriptor` as a whole: the forward pass for
    `race_end`, the reverse pass for `race_finish` and a first `race_start`,
    and the forward population pass that moves `race_start` on to the first
    packet whose participants all show a position and a sector; then the
    `_to_hash` call of `RaceData.__init__` that positions the stream at
    `race_start`.

    The descriptor keeps hashes, as the source does; `Landmarks` keeps the
    positions, in capture order, of the packets those hashes were taken
    from.
 */
module RaceDescriptor {
  import opened Results
  import opened RaceStream
  import RaceEnd
  import RaceStart

  /** `packet_data[:n]` with Python's slice rules: the first `n` elements,
      all of them when there are fewer, and for a negative `n` all but the
      last `-n`. */
  function SliceTo(xs: seq<Slot>, n: int): (ys: seq<Slot>)
    ensures ys <= xs
    ensures 0 <= n <= |xs| ==> |ys| == n
    ensures n > |xs| ==> ys == xs
    ensures n < 0 ==> |ys| == if |xs| + n < 0 then 0 else |xs| + n
  {
    if n >= 0 then (if n <= |xs| then xs[..n] else xs)
    else if |xs| + n < 0 then [] else xs[..|xs| + n]
  }

  /** `all(positions) and all(sectors)` over the first `num_participants`
      slots: every counted participant has a race position and a sector. */
  predicate IsPopulated(p: StreamPacket)
    requires p.Telemetry?
  {
    var shown := SliceTo(p.slots, p.numParticipants);
    forall i | 0 <= i < |shown| :: shown[i].racePosition != 0 && shown[i].sector != 0
  }

  /** The population pass from packet `f`: the first populated packet,
      `AttributeError` at a packet with no `participant_info` (one of the
      participant layouts) met first, `StopIteration` when the stream runs
      out first. */
  function PopulatedFrom(s: seq<StreamPacket>, f: nat): (r: Result<nat>)
    ensures r.Ok? ==> f <= r.value < |s| && s[r.value].Telemetry? && IsPopulated(s[r.value])
    ensures r.Ok? ==> forall k | f <= k < r.value :: s[k].Telemetry? && !IsPopulated(s[k])
    ensures r == Err(AttributeError) ==>
              exists k | f <= k < |s| :: s[k].Other? && forall j | f <= j < k :: s[j].Telemetry? && !IsPopulated(s[j])
    ensures r == Err(StopIteration) <==> forall k | f <= k < |s| :: s[k].Telemetry? && !IsPopulated(s[k])
    ensures r.Err? ==> r.error == AttributeError || r.error == StopIteration
    decreases |s| - f
  {
    if f >= |s| then Err(StopIteration)
    else if s[f].Other? then Err(AttributeError)
    else if IsPopulated(s[f]) then Ok(f)
    else PopulatedFrom(s, f + 1)
  }

  /** The JSON descriptor `{'race_end', 'race_finish', 'race_start'}`. */
  datatype Descriptor = Descriptor(raceEnd: Option<int>, raceFinish: int, raceStart: int)

  /** Where the descriptor's packets are, in capture order: the forward
      pass's packet (`end`), the last packet with its hash (`endMatch`,
      where the reverse pass found it), `race_finish`, the green flag, the
      packet that stopped the walk back from the green flag (`walkStop`, -1
      when the walk ran off the start of the stream), the reverse pass's
      `race_start` (`walkStart`), the first packet with that hash
      (`rewound`), and the populated packet that becomes `race_start`. */
  datatype Landmarks = Landmarks(
    end: nat, endMatch: nat, finish: nat, green: nat, walkStop: int,
    walkStart: nat, rewound: nat, populated: nat)

  /** Position `i` of the reversed stream is position `|s| - 1 - i` of the
      stream. */
  function Forward(s: seq<StreamPacket>, i: nat): (k: nat)
    requires i < |s|
    ensures k < |s| && Reverse(s)[i] == s[k]
  {
    |s| - 1 - i
  }

  /** The landmarks lie in the stream, in this capture order. */
  predicate Ordered(s: seq<StreamPacket>, m: Landmarks) {
    m.rewound <= m.walkStart <= m.green < m.finish < m.endMatch < |s| &&
    m.end <= m.endMatch && m.rewound <= m.populated < |s|
  }

  /** `endMatch` is the last packet with the hash of the forward pass's
      packet. */
  predicate EndMatched(s: seq<StreamPacket>, m: Landmarks)
    requires m.end < |s| && m.endMatch < |s|
  {
    s[m.endMatch].hash == s[m.end].hash &&
    forall k | m.endMatch < k < |s| :: s[k].hash != s[m.end].hash
  }

  /** `finish` is the last racing packet before `endMatch`, and `green` the
      last packet on the grid before `finish`. */
  predicate FinishAndGreen(s: seq<StreamPacket>, m: Landmarks)
    requires m.green < |s| && m.finish < |s| && m.endMatch <= |s|
  {
    RaceStart.IsRacing(s[m.finish]) &&
    (forall k | m.finish < k < m.endMatch :: !RaceStart.IsRacing(s[k])) &&
    RaceStart.IsOnGrid(s[m.green]) &&
    forall k | m.green < k < m.finish :: !RaceStart.IsOnGrid(s[k])
  }

  /** The walk back from the green flag stopped at `walkStop`, the last
      packet before the green flag that leaves the race (or ran off the start
      of the stream), and `walkStart` is the earliest telemetry packet after
      it: no telemetry packet lies strictly between the two. */
  predicate WalkStopped(s: seq<StreamPacket>, m: Landmarks)
    requires m.walkStart < |s| && m.green < |s|
  {
    -1 <= m.walkStop < m.walkStart <= m.green &&
    (m.walkStop >= 0 ==> RaceStart.LeavesRace(s[m.walkStop])) &&
    (forall k | m.walkStop < k < m.green :: !RaceStart.LeavesRace(s[k])) &&
    IsTelemetry(s[m.walkStart]) &&
    forall k | m.walkStop < k < m.walkStart :: !IsTelemetry(s[k])
  }

  /** `walkStart` is a telemetry packet, `rewound` the first packet with its
      hash, and `populated` the first populated packet from there. */
  predicate StartFound(s: seq<StreamPacket>, m: Landmarks)
    requires m.walkStart < |s| && m.rewound < |s| && m.populated < |s|
  {
    IsTelemetry(s[m.walkStart]) && s[m.rewound].hash == s[m.walkStart].hash &&
    (forall k | 0 <= k < m.rewound :: s[k].hash != s[m.walkStart].hash) &&
    s[m.populated].Telemetry? && IsPopulated(s[m.populated]) &&
    forall k | m.rewound <= k < m.populated :: s[k].Telemetry? && !IsPopulated(s[k])
  }

  /** The three passes. */
  function Scan(s: seq<StreamPacket>): (r: Result<Landmarks>)
    ensures r.Err? ==> r.error == StopIteration || r.error == AttributeError
    ensures RaceEnd.ForwardScan(s).None? ==> r == Err(StopIteration)
    ensures r.Ok? ==> RaceEnd.ForwardScan(s) == Some(r.value.end) && Ordered(s, r.value)
    ensures r.Ok? ==> EndMatched(s, r.value) && FinishAndGreen(s, r.value) && StartFound(s, r.value)
    ensures r.Ok? ==> WalkStopped(s, r.value)
  {
    var rs := Reverse(s);
    var endHash := RaceEnd.RaceEndHash(s);
    var m :- RaceStart.ReversePass(rs, endHash);
    var e := RaceEnd.ForwardScan(s).value;
    var walkStart := Forward(s, m.start);
    ToHashFinds(s, walkStart);
    var rewound := ToHash(s, s[walkStart].hash).value;
    var populated :- PopulatedFrom(s, rewound);
    var walkStop := |s| - 1 - RaceStart.StopAfter(rs, m.green);
    var marks := Landmarks(e, Forward(s, m.end), Forward(s, m.finish), Forward(s, m.green),
                           walkStop, walkStart, rewound, populated);
    LandmarksHold(s, m, marks);
    Ok(marks)
  }

  /** The passes' results, gathered into the landmarks' four properties. */
  lemma LandmarksHold(s: seq<StreamPacket>, m: RaceStart.ReverseMarks, marks: Landmarks)
    requires marks.end < |s| && RaceStart.PassMarks(Reverse(s), Some(s[marks.end].hash), m)
    requires marks.endMatch == Forward(s, m.end) && marks.finish == Forward(s, m.finish)
    requires marks.green == Forward(s, m.green) && marks.walkStart == Forward(s, m.start)
    requires ToHash(s, s[marks.walkStart].hash) == Ok(marks.rewound)
    requires marks.walkStop == |s| - 1 - RaceStart.StopAfter(Reverse(s), m.green)
    requires PopulatedFrom(s, marks.rewound) == Ok(marks.populated)
    ensures Ordered(s, marks)
    ensures EndMatched(s, marks) && FinishAndGreen(s, marks) && StartFound(s, marks)
    ensures WalkStopped(s, marks)
  {
    ReverseMarksForward(s, m, marks);
    StartLandmarks(s, marks);
  }

  /** The rewind to the first packet with the walk's hash, then the
      population pass from there. */
  lemma StartLandmarks(s: seq<StreamPacket>, marks: Landmarks)
    requires marks.walkStart < |s| && IsTelemetry(s[marks.walkStart])
    requires ToHash(s, s[marks.walkStart].hash) == Ok(marks.rewound)
    requires PopulatedFrom(s, marks.rewound) == Ok(marks.populated)
    ensures marks.rewound <= marks.walkStart && marks.rewound <= marks.populated < |s|
    ensures StartFound(s, marks)
  {
  }

  /** A stretch of the reversed stream with no packet meeting `P` is a
      stretch of the stream with none. */
  lemma ReverseGap(s: seq<StreamPacket>, P: StreamPacket -> bool, lo: int, hi: int)
    requires -1 <= lo < hi <= |s|
    requires forall i | lo < i < hi :: !P(Reverse(s)[i])
    ensures forall k | |s| - 1 - hi < k < |s| - 1 - lo :: !P(s[k])
  {
    forall k | |s| - 1 - hi < k < |s| - 1 - lo ensures !P(s[k]) {
      assert Reverse(s)[|s| - 1 - k] == s[k];
    }
  }

  /** The reverse pass's facts about `Reverse(s)`, restated in capture
      order. */
  lemma ReverseMarksForward(s: seq<StreamPacket>, m: RaceStart.ReverseMarks, marks: Landmarks)
    requires marks.end < |s| && RaceStart.PassMarks(Reverse(s), Some(s[marks.end].hash), m)
    requires marks.endMatch == Forward(s, m.end) && marks.finish == Forward(s, m.finish)
    requires marks.green == Forward(s, m.green) && marks.walkStart == Forward(s, m.start)
    requires marks.walkStop == |s| - 1 - RaceStart.StopAfter(Reverse(s), m.green)
    ensures marks.walkStart <= marks.green < marks.finish < marks.endMatch < |s|
    ensures marks.end <= marks.endMatch && EndMatched(s, marks) && FinishAndGreen(s, marks)
    ensures IsTelemetry(s[marks.walkStart]) && WalkStopped(s, marks)
  {
    WalkForward(s, m, marks);
    var rs := Reverse(s);
    var h := s[marks.end].hash;
    ReverseGap(s, RaceStart.EndTest(Some(h)), -1, m.end);
    // The forward pass's packet has the hash, so the reverse pass met it no
    // later than its reversed position.
    assert RaceStart.IsEndHash(Some(h), rs[|s| - 1 - marks.end]);
    ReverseGap(s, RaceStart.IsRacing, m.end, m.finish);
    ReverseGap(s, RaceStart.IsOnGrid, m.finish, m.green);
  }

  /** The walk back from the green flag, restated in capture order. */
  lemma WalkForward(s: seq<StreamPacket>, m: RaceStart.ReverseMarks, marks: Landmarks)
    requires m.green <= m.start < |s| && RaceStart.LastBeforeStop(Reverse(s), m.green, m.start)
    requires marks.green == Forward(s, m.green) && marks.walkStart == Forward(s, m.start)
    requires marks.walkStop == |s| - 1 - RaceStart.StopAfter(Reverse(s), m.green)
    ensures WalkStopped(s, marks)
  {
    var rs := Reverse(s);
    // The walk stopped at reversed position `b`, past the green flag and the
    // walk's last telemetry packet.
    var b := RaceStart.StopAfter(rs, m.green);
    ReverseGap(s, RaceStart.LeavesRace, m.green, b);
    ReverseGap(s, IsTelemetry, m.start, b);
    if b < |s| {
      assert rs[b] == s[marks.walkStop];
    }
  }

  /** What `Scan` promises of the landmarks it returns. */
  predicate ScanMarks(s: seq<StreamPacket>, m: Landmarks) {
    RaceEnd.ForwardScan(s) == Some(m.end) && Ordered(s, m) &&
    EndMatched(s, m) && FinishAndGreen(s, m) && StartFound(s, m) && WalkStopped(s, m)
  }

  /** The promises pin the landmarks down: landmarks that keep them are the
      ones `Scan` returns, so the passes fail only on a stream where no
      landmarks keep them. */
  lemma ScanComplete(s: seq<StreamPacket>, m: Landmarks)
    requires ScanMarks(s, m)
    ensures Scan(s) == Ok(m)
  {
    assert RaceEnd.RaceEndHash(s) == Some(s[m.end].hash);
    assert RaceStart.ReversePass(Reverse(s), Some(s[m.end].hash)) == Ok(ReversedMarks(s, m)) by {
      ReverseMarksOf(s, m);
    }
    assert Forward(s, ReversedMarks(s, m).start) == m.walkStart;
    assert ToHash(s, s[m.walkStart].hash) == Ok(m.rewound) by {
      FirstWithHash(s, m.rewound);
    }
    assert PopulatedFrom(s, m.rewound) == Ok(m.populated) by {
      PopulatedAt(s, m.rewound, m.populated);
    }
    assert Scan(s).Ok?;
    ScanMarksUnique(s, Scan(s).value, m);
  }

  /** The passes succeed exactly when some landmarks keep `Scan`'s
      promises: they fail only on a stream that has none. */
  lemma ScanSucceeds(s: seq<StreamPacket>)
    ensures Scan(s).Ok? <==> exists m :: ScanMarks(s, m)
  {
    if Scan(s).Ok? {
      assert ScanMarks(s, Scan(s).value);
    }
    if m :| ScanMarks(s, m) {
      ScanComplete(s, m);
    }
  }

  /** At most one set of landmarks keeps `Scan`'s promises. */
  lemma ScanMarksUnique(s: seq<StreamPacket>, m1: Landmarks, m2: Landmarks)
    requires ScanMarks(s, m1) && ScanMarks(s, m2)
    ensures m1 == m2
  {
    ReverseAgree(s, m1, m2);
    StartAgree(s, m1, m2);
  }

  /** Landmarks with the same end agree on what the reverse pass finds. */
  lemma ReverseAgree(s: seq<StreamPacket>, m1: Landmarks, m2: Landmarks)
    requires Ordered(s, m1) && EndMatched(s, m1) && FinishAndGreen(s, m1) && WalkStopped(s, m1)
    requires Ordered(s, m2) && EndMatched(s, m2) && FinishAndGreen(s, m2) && WalkStopped(s, m2)
    requires m1.end == m2.end
    ensures m1.endMatch == m2.endMatch && m1.finish == m2.finish && m1.green == m2.green
    ensures m1.walkStop == m2.walkStop && m1.walkStart == m2.walkStart
  {
    ReverseMarksOf(s, m1);
    ReverseMarksOf(s, m2);
    assert ReversedMarks(s, m1) == ReversedMarks(s, m2);
  }

  /** Landmarks with the same walk start agree on the rewind and the
      population pass. */
  lemma StartAgree(s: seq<StreamPacket>, m1: Landmarks, m2: Landmarks)
    requires Ordered(s, m1) && StartFound(s, m1) && Ordered(s, m2) && StartFound(s, m2)
    requires m1.walkStart == m2.walkStart
    ensures m1.rewound == m2.rewound && m1.populated == m2.populated
  {
    FirstWithHash(s, m1.rewound);
    FirstWithHash(s, m2.rewound);
    PopulatedAt(s, m1.rewound, m1.populated);
    PopulatedAt(s, m2.rewound, m2.populated);
  }

  /** `_to_hash` finds a packet that no earlier packet's hash matches. */
  lemma FirstWithHash(s: seq<StreamPacket>, k: nat)
    requires k < |s| && forall j | 0 <= j < k :: s[j].hash != s[k].hash
    ensures ToHash(s, s[k].hash) == Ok(k)
  {
    ToHashFinds(s, k);
    var v := ToHash(s, s[k].hash).value;
    assert !(v < k) && !(k < v);
  }

  /** The reverse-pass positions of the end match, finish, green flag and
      walk start. */
  function ReversedMarks(s: seq<StreamPacket>, m: Landmarks): RaceStart.ReverseMarks
    requires Ordered(s, m)
  {
    RaceStart.ReverseMarks(|s| - 1 - m.endMatch, |s| - 1 - m.finish, |s| - 1 - m.green, |s| - 1 - m.walkStart)
  }

  /** The reverse pass over a stream with such landmarks stops at their
      reversed positions. */
  lemma ReverseMarksOf(s: seq<StreamPacket>, m: Landmarks)
    requires Ordered(s, m) && EndMatched(s, m) && FinishAndGreen(s, m) && WalkStopped(s, m)
    ensures RaceStart.ReversePass(Reverse(s), Some(s[m.end].hash)) == Ok(ReversedMarks(s, m))
    ensures RaceStart.StopAfter(Reverse(s), |s| - 1 - m.green) == |s| - 1 - m.walkStop
  {
    LandmarksWitnessPass(s, m);
    StopOf(s, m, |s| - 1 - m.green);
    PassMarksAre(s, m, RaceStart.ReversePass(Reverse(s), Some(s[m.end].hash)).value);
  }

  /** The end match, the finish and the green flag witness the reverse
      pass's success. */
  lemma LandmarksWitnessPass(s: seq<StreamPacket>, m: Landmarks)
    requires Ordered(s, m) && EndMatched(s, m) && FinishAndGreen(s, m)
    ensures RaceStart.ReversePass(Reverse(s), Some(s[m.end].hash)).Ok?
  {
    var rs, n := Reverse(s), |s|;
    var a, b, g := n - 1 - m.endMatch, n - 1 - m.finish, n - 1 - m.green;
    assert rs[a] == s[m.endMatch] && rs[b] == s[m.finish] && rs[g] == s[m.green];
    RaceStart.WitnessFound(rs, Some(s[m.end].hash), a, b, g);
  }

  /** Marks with the reverse pass's properties are the reversed landmarks. */
  lemma PassMarksAre(s: seq<StreamPacket>, m: Landmarks, pm: RaceStart.ReverseMarks)
    requires Ordered(s, m) && EndMatched(s, m) && FinishAndGreen(s, m) && WalkStopped(s, m)
    requires RaceStart.PassMarks(Reverse(s), Some(s[m.end].hash), pm)
    requires RaceStart.StopAfter(Reverse(s), |s| - 1 - m.green) == |s| - 1 - m.walkStop
    ensures pm == ReversedMarks(s, m)
  {
    EndMarkIs(s, m, pm.end);
    FinishMarkIs(s, m, pm.end, pm.finish);
    GreenMarkIs(s, m, pm.finish, pm.green);
    StartMarkIs(s, m, pm.green, pm.start);
  }

  /** The first packet of the reversed stream with the end hash is the
      reversed end match. */
  lemma EndMarkIs(s: seq<StreamPacket>, m: Landmarks, e: nat)
    requires Ordered(s, m) && EndMatched(s, m) && e < |s|
    requires RaceStart.FirstEnd(Reverse(s), Some(s[m.end].hash), e)
    ensures e == |s| - 1 - m.endMatch
  {
    var h := Some(s[m.end].hash);
    LastOf(s, (p: StreamPacket) => RaceStart.IsEndHash(h, p), -1, m.endMatch, |s|, e);
  }

  /** The first racing packet after the reversed end match is the reversed
      finish. */
  lemma FinishMarkIs(s: seq<StreamPacket>, m: Landmarks, e: nat, f: nat)
    requires Ordered(s, m) && FinishAndGreen(s, m)
    requires e == |s| - 1 - m.endMatch && e < f < |s| && RaceStart.FirstRacing(Reverse(s), e, f)
    ensures f == |s| - 1 - m.finish
  {
    LastOf(s, RaceStart.IsRacing, e, m.finish, m.endMatch, f);
  }

  /** The first packet on the grid after the reversed finish is the reversed
      green flag. */
  lemma GreenMarkIs(s: seq<StreamPacket>, m: Landmarks, f: nat, g: nat)
    requires Ordered(s, m) && FinishAndGreen(s, m)
    requires f == |s| - 1 - m.finish && f < g < |s| && RaceStart.FirstOnGrid(Reverse(s), f, g)
    ensures g == |s| - 1 - m.green
  {
    LastOf(s, RaceStart.IsOnGrid, f, m.green, m.finish, g);
  }

  /** The last telemetry packet before the walk stops is the reversed walk
      start. */
  lemma StartMarkIs(s: seq<StreamPacket>, m: Landmarks, g: nat, st: nat)
    requires Ordered(s, m) && WalkStopped(s, m)
    requires g == |s| - 1 - m.green && g <= st < |s| && RaceStart.LastBeforeStop(Reverse(s), g, st)
    requires RaceStart.StopAfter(Reverse(s), g) == |s| - 1 - m.walkStop
    ensures st == |s| - 1 - m.walkStart
  {
    FirstOf(s, IsTelemetry, m.walkStop, m.walkStart, st);
  }

  /** A packet `x` of the reversed stream that meets `P`, with none meeting
      it between reversed position `lo` and `x`, is the packet `k` of the
      stream when `k` is the last packet before `hi` that meets `P` and
      lies at reversed position past `lo`. */
  lemma LastOf(s: seq<StreamPacket>, P: StreamPacket -> bool, lo: int, k: nat, hi: nat, x: nat)
    requires k < hi <= |s| && -1 <= lo < |s| - 1 - k && x < |s|
    requires P(s[k]) && forall j | k < j < hi :: !P(s[j])
    requires lo < x && P(Reverse(s)[x]) && forall j | lo < j < x :: !P(Reverse(s)[j])
    requires |s| - 1 - hi < x
    ensures x == |s| - 1 - k
  {
    assert Reverse(s)[|s| - 1 - k] == s[k];
    assert Reverse(s)[x] == s[|s| - 1 - x];
  }

  /** A packet `x` of the reversed stream that meets `P`, with none meeting
      it between `x` and the reversed position of `lo`, is the packet `k` of
      the stream when `k` is the first packet after `lo` that meets `P`. */
  lemma FirstOf(s: seq<StreamPacket>, P: StreamPacket -> bool, lo: int, k: nat, x: nat)
    requires -1 <= lo < k < |s| && x < |s| - 1 - lo
    requires P(s[k]) && forall j | lo < j < k :: !P(s[j])
    requires P(Reverse(s)[x]) && forall j | x < j < |s| - 1 - lo :: !P(Reverse(s)[j])
    ensures x == |s| - 1 - k
  {
    assert Reverse(s)[|s| - 1 - k] == s[k];
    assert Reverse(s)[x] == s[|s| - 1 - x];
  }

  /** The walk from the green flag stops at the reversed position of
      `walkStop`, or at the end of the reversed stream when it is -1. */
  lemma StopOf(s: seq<StreamPacket>, m: Landmarks, g: nat)
    requires Ordered(s, m) && WalkStopped(s, m) && g == |s| - 1 - m.green
    ensures RaceStart.StopAfter(Reverse(s), g) == |s| - 1 - m.walkStop
  {
    var rs, c := Reverse(s), |s| - 1 - m.walkStop;
    var b := RaceStart.StopAfter(rs, g);
    assert b < |s| ==> rs[b] == s[|s| - 1 - b];
    assert c < |s| ==> rs[c] == s[m.walkStop];
  }

  /** The population pass from `f` stops at `p` when `p` is the first
      populated telemetry packet from `f` on and every packet before it is
      telemetry. */
  lemma {:induction false} PopulatedAt(s: seq<StreamPacket>, f: nat, p: nat)
    requires f <= p < |s| && s[p].Telemetry? && IsPopulated(s[p])
    requires forall j | f <= j < p :: s[j].Telemetry? && !IsPopulated(s[j])
    ensures PopulatedFrom(s, f) == Ok(p)
    decreases p - f
  {
    if f < p {
      PopulatedAt(s, f + 1, p);
    }
  }

  /** A stream has a descriptor exactly when it has landmarks that keep
      `Scan`'s promises, and the descriptor is then their packets' hashes. */
  lemma DescriptorComplete(s: seq<StreamPacket>, m: Landmarks)
    requires ScanMarks(s, m)
    ensures BuildDescriptor(s) == Ok(Descriptor(Some(s[m.end].hash), s[m.finish].hash, s[m.populated].hash))
  {
    ScanComplete(s, m);
  }

  /** `_build_descriptor`: the three hashes, `race_end` as the forward pass
      took it, the others from the packets the later passes stopped at. */
  function BuildDescriptor(s: seq<StreamPacket>): (r: Result<Descriptor>)
    ensures r.Ok? <==> Scan(s).Ok?
    ensures r.Err? ==> r.error == StopIteration || r.error == AttributeError
    ensures r.Ok? ==> r.value.raceEnd == Some(s[Scan(s).value.end].hash)
    ensures r.Ok? ==> r.value.raceFinish == s[Scan(s).value.finish].hash
    ensures r.Ok? ==> r.value.raceStart == s[Scan(s).value.populated].hash
  {
    var m :- Scan(s);
    Ok(Descriptor(RaceEnd.RaceEndHash(s), s[m.finish].hash, s[m.populated].hash))
  }

  /** The `finally` clause of `__init__` after building the descriptor: on a
      built descriptor, the first packet with the `race_start` hash, which it
      always finds, no later than the populated packet. When the build raised,
      `descriptor` is still `None`, and subscripting it raises `TypeError`,
      which replaces the build's own exception. */
  function StartPacket(s: seq<StreamPacket>): (r: Result<nat>)
    ensures BuildDescriptor(s).Ok? ==> r.Ok? && r.value <= Scan(s).value.populated
    ensures BuildDescriptor(s).Ok? ==> s[r.value].hash == BuildDescriptor(s).value.raceStart
    ensures BuildDescriptor(s).Ok? ==> forall k | 0 <= k < r.value :: s[k].hash != BuildDescriptor(s).value.raceStart
    ensures BuildDescriptor(s).Err? ==> r == Err(TypeError)
  {
    match BuildDescriptor(s)
    case Err(_) => Err(TypeError)
    case Ok(d) =>
      ToHashFinds(s, Scan(s).value.populated);
      ToHash(s, d.raceStart)
  }

  /** A stream with no finished telemetry packet has no descriptor: its
      `race_end` is `hash(None)`, which the reverse pass never finds, and
      `__init__` then fails with `TypeError`. */
  lemma NoFinishNoDescriptor(s: seq<StreamPacket>)
    requires forall k | 0 <= k < |s| :: !RaceEnd.IsFinished(s[k])
    ensures BuildDescriptor(s) == Err(StopIteration)
    ensures StartPacket(s) == Err(TypeError)
  {
    RaceEnd.ForwardScanFinds(s);
  }

  /** The stream of the "start packet without driver population" case: the
      walk back from the green flag reaches the earlier unpopulated packet,
      and the population pass moves `race_start` forward again to the next
      one. Hashes are 1 to 4 in capture order. */
  function UnpopulatedStream(): seq<StreamPacket> {
    [Telemetry(1, 0, RaceNotStarted, SessionRace, GameInGamePlaying, 1, [Slot(0, 0)]),
     Telemetry(2, 0, RaceNotStarted, SessionRace, GameInGamePlaying, 1, []),
     Telemetry(3, 0, RaceRacing, 0, 0, 0, []),
     Telemetry(4, 0, RaceFinished, 0, 0, 0, [])]
  }

  lemma UnpopulatedForward()
    ensures RaceEnd.ForwardScan(UnpopulatedStream()) == Some(3)
    ensures RaceEnd.RaceEndHash(UnpopulatedStream()) == Some(4)
  {
    assert RaceEnd.InRun(UnpopulatedStream(), 3);
  }

  lemma UnpopulatedReverse()
    ensures RaceStart.ReversePass(Reverse(UnpopulatedStream()), Some(4)) == Ok(RaceStart.ReverseMarks(0, 1, 2, 3))
  {
    var rs := Reverse(UnpopulatedStream());
    UnpopulatedReversed();
    UnpopulatedSkips(rs);
    UnpopulatedWalk(rs);
  }

  lemma UnpopulatedReversed()
    ensures var s := UnpopulatedStream(); Reverse(s) == [s[3], s[2], s[1], s[0]]
  {
  }

  lemma UnpopulatedSkips(rs: seq<StreamPacket>)
    requires var s := UnpopulatedStream(); rs == [s[3], s[2], s[1], s[0]]
    ensures FindFrom(rs, 0, RaceStart.EndTest(Some(4))) == Ok(0)
    ensures FindFrom(rs, 1, RaceStart.IsRacing) == Ok(1)
    ensures FindFrom(rs, 2, RaceStart.IsOnGrid) == Ok(2)
  {
    assert RaceStart.EndTest(Some(4))(rs[0]);
  }

  lemma UnpopulatedWalk(rs: seq<StreamPacket>)
    requires var s := UnpopulatedStream(); rs == [s[3], s[2], s[1], s[0]]
    ensures RaceStart.WalkFrom(rs, 2, 2) == 3
  {
    assert RaceStart.StopAfter(rs, 2) == 4;
  }

  lemma UnpopulatedPopulation()
    ensures PopulatedFrom(UnpopulatedStream(), 0) == Ok(1)
  {
    var s := UnpopulatedStream();
    assert !IsPopulated(s[0]) by {
      assert SliceTo(s[0].slots, 1) == [Slot(0, 0)];
      assert SliceTo(s[0].slots, 1)[0].racePosition == 0;
    }
  }

  lemma UnpopulatedStartMovesOn()
    ensures BuildDescriptor(UnpopulatedStream()) == Ok(Descriptor(Some(4), 3, 2))
    ensures StartPacket(UnpopulatedStream()) == Ok(1)
  {
    UnpopulatedForward();
    UnpopulatedReverse();
    UnpopulatedPopulation();
    assert ToHash(UnpopulatedStream(), 1) == Ok(0);
  }
}
