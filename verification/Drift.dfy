/** Position projection, synchronisation and drift smoothing
    (apps/client/src/drift/drift.ts). Positions and clocks are integer
    milliseconds, the smoothed value is a real. */
module Drift {
  import opened Wrappers
  import opened Sorting
  import opened ClockSkew

  datatype Kind = Play | Pause | Seek

  datatype Command = Command(kind: Kind, positionMs: int, serverTsMs: int)

  datatype HostCommand = HostCommand(positionMs: int, serverTsMs: int, paused: bool)

  function NextHostPaused(prev: bool, kind: Kind): bool {
    match kind case Play => false case Pause => true case Seek => prev
  }

  function ExpectedPosition(c: HostCommand, now: int, skew: int): int {
    if c.paused then c.positionMs
    else
      var localTs := c.serverTsMs - skew;
      c.positionMs + if now > localTs then now - localTs else 0
  }

  /** Where a viewer moves its video when it applies a command at local `now`. */
  function AppliedPosition(c: Command, hostPaused: bool, now: int, skew: Option<int>): int {
    match skew
    case None => c.positionMs
    case Some(s) =>
      var paused := c.kind == Pause || (c.kind == Seek && hostPaused);
      ExpectedPosition(HostCommand(c.positionMs, c.serverTsMs, paused), now, s)
  }

  function RawDrift(local: int, c: Option<HostCommand>, now: int, skew: int): Option<int> {
    match c case None => None case Some(h) => Some(local - ExpectedPosition(h, now, skew))
  }

  /** A playing room stands at the command's position until the stamp, in local time, and
      advances 1 ms per ms from then on; a paused one stands still. */
  lemma ProjectionExactly(c: HostCommand, skew: int, d: nat)
    ensures var stamp := c.serverTsMs - skew;
            && ExpectedPosition(c, stamp - d, skew) == c.positionMs
            && ExpectedPosition(c, stamp + d, skew) == if c.paused then c.positionMs else c.positionMs + d
  {}

  /** A command moves the viewer to the projected position: of a paused room if it pauses or
      seeks in one. Without a clock estimate nothing is guessed. */
  lemma AppliedExactly(c: Command, hostPaused: bool, now: int, skew: int)
    ensures AppliedPosition(c, hostPaused, now, None) == c.positionMs
    ensures Advances(c, hostPaused) ==>
              AppliedPosition(c, hostPaused, now, Some(skew)) == ExpectedPosition(HostCommand(c.positionMs, c.serverTsMs, false), now, skew)
    ensures !Advances(c, hostPaused) ==> AppliedPosition(c, hostPaused, now, Some(skew)) == c.positionMs
  {}

  /** The drift is how far the viewer is ahead; without a command there is none. */
  lemma DriftIsLead(c: HostCommand, now: int, skew: int, lead: int)
    ensures RawDrift(ExpectedPosition(c, now, skew) + lead, Some(c), now, skew) == Some(lead)
    ensures RawDrift(lead, None, now, skew) == None
  {}

  // ----- two viewers -----

  /** A viewer whose server clock is `theta` ahead, that applied the command at
      local time `appliedAt` with skew estimate `skew`. */
  datatype Viewer = Viewer(theta: int, skew: Option<int>, appliedAt: int)

  predicate Advances(c: Command, hostPaused: bool) {
    c.kind == Play || (c.kind == Seek && !hostPaused)
  }

  /** The position shown at true server time `t`, playing at rate 1 unless paused. */
  function Shown(v: Viewer, c: Command, hostPaused: bool, t: int): int {
    AppliedPosition(c, hostPaused, v.appliedAt, v.skew)
    + if Advances(c, hostPaused) then t - v.theta - v.appliedAt else 0
  }

  /** The viewer's estimate came from honest probes, and it applied the command
      after the server had stamped it. */
  ghost predicate Synced(v: Viewer, probes: seq<Probe>, c: Command) {
    && (forall i :: 0 <= i < |probes| && Accepted(probes[i]) ==> Honest(probes[i], v.theta))
    && SkewOf(probes).Some? && v.skew == SkewOf(probes)
    && v.appliedAt + v.theta >= c.serverTsMs
  }

  /** Each viewer shows the ideal position up to 250 ms, forever. */
  lemma NearIdeal(v: Viewer, probes: seq<Probe>, c: Command, hostPaused: bool, t: int)
    requires Synced(v, probes, c)
    ensures var ideal := c.positionMs + if Advances(c, hostPaused) then t - c.serverTsMs else 0;
            -250 <= Shown(v, c, hostPaused, t) - ideal <= 250
  {
    SkewAccuracy(probes, v.theta);
  }

  /** Synchronisation bound: two viewers that apply the same command, whenever
      each of them does, stay within 500 ms of each other forever; and exactly
      together while the room is paused. */
  lemma SyncBound(v: Viewer, probesV: seq<Probe>, w: Viewer, probesW: seq<Probe>, c: Command, hostPaused: bool, t: int)
    requires Synced(v, probesV, c) && Synced(w, probesW, c)
    ensures -500 <= Shown(v, c, hostPaused, t) - Shown(w, c, hostPaused, t) <= 500
    ensures !Advances(c, hostPaused) ==> Shown(v, c, hostPaused, t) == Shown(w, c, hostPaused, t)
  {
    NearIdeal(v, probesV, c, hostPaused, t);
    NearIdeal(w, probesW, c, hostPaused, t);
  }

  // ----- a room that follows a run of commands -----

  /** Whether the room is paused after the commands; it starts unpaused. */
  function PausedAfter(cmds: seq<Command>): bool {
    if cmds == [] then false else NextHostPaused(PausedAfter(cmds[..|cmds| - 1]), cmds[|cmds| - 1].kind)
  }

  /** The room is paused exactly if a pause was followed by nothing but seeks. */
  lemma {:induction false} PausedExactlyWhen(cmds: seq<Command>)
    ensures PausedAfter(cmds) <==>
              exists i :: 0 <= i < |cmds| && cmds[i].kind == Pause && forall j :: i < j < |cmds| ==> cmds[j].kind == Seek
  {
    if cmds != [] {
      var n := |cmds| - 1;
      PausedExactlyWhen(cmds[..n]);
      if PausedAfter(cmds) {
        var i := n;
        if cmds[n].kind == Seek {
          i :| 0 <= i < n && cmds[..n][i].kind == Pause && forall j :: i < j < n ==> cmds[..n][j].kind == Seek;
          forall j | i < j < |cmds|
            ensures cmds[j].kind == Seek
          {
            assert j < n ==> cmds[..n][j] == cmds[j];
          }
        }
        assert cmds[i].kind == Pause;
      }
      if exists i :: 0 <= i < |cmds| && cmds[i].kind == Pause && forall j :: i < j < |cmds| ==> cmds[j].kind == Seek {
        var i :| 0 <= i < |cmds| && cmds[i].kind == Pause && forall j :: i < j < |cmds| ==> cmds[j].kind == Seek;
        if i < n {
          assert cmds[..n][i].kind == Pause;
        }
      }
    }
  }

  /** After any run of commands, viewers that applied the last one stand still together
      while the room is paused and otherwise stay within 500 ms of each other. */
  lemma RoomInSync(cmds: seq<Command>, v: Viewer, probesV: seq<Probe>, w: Viewer, probesW: seq<Probe>, t: int, later: int)
    requires cmds != [] && Synced(v, probesV, cmds[|cmds| - 1]) && Synced(w, probesW, cmds[|cmds| - 1])
    ensures var c, paused := cmds[|cmds| - 1], PausedAfter(cmds);
            && -500 <= Shown(v, c, paused, t) - Shown(w, c, paused, t) <= 500
            && (paused ==> Shown(v, c, paused, t) == Shown(w, c, paused, t) == c.positionMs)
            && Shown(v, c, paused, later) - Shown(v, c, paused, t) == if paused then 0 else later - t
  {
    hide SkewOf;
    SyncBound(v, probesV, w, probesW, cmds[|cmds| - 1], PausedAfter(cmds), t);
  }

  /** The drift a viewer computes for itself at local `now` after applying `c`. */
  function OwnDrift(v: Viewer, skew: int, c: Command, now: int): int {
    RawDrift(AppliedPosition(c, false, v.appliedAt, Some(skew)) + now - v.appliedAt,
      Some(HostCommand(c.positionMs, c.serverTsMs, false)), now, skew).value
  }

  /** A playing viewer sees no drift of its own from then on exactly if it applied
      the command no earlier than the projected server stamp. */
  lemma OwnDriftZero(v: Viewer, skew: int, c: Command)
    requires Advances(c, false)
    ensures (forall now :: now >= v.appliedAt ==> OwnDrift(v, skew, c, now) == 0) <==> v.appliedAt >= c.serverTsMs - skew
  {
    if v.appliedAt < c.serverTsMs - skew {
      assert OwnDrift(v, skew, c, c.serverTsMs - skew) != 0;
    }
  }

  // ----- smoothing -----

  datatype DriftState = DriftState(smoothed: Option<real>, raw: Option<real>, lastSampleAt: Option<int>, sampleCount: nat)

  const Initial: DriftState := DriftState(None, None, None, 0)

  function ApplySample(alpha: real, s: DriftState, raw: Option<real>, now: int): DriftState {
    match raw
    case None => s.(lastSampleAt := Some(now))
    case Some(r) =>
      var next := match s.smoothed case None => r case Some(x) => x + alpha * (r - x);
      DriftState(Some(next), Some(r), Some(now), s.sampleCount + 1)
  }

  datatype Sample = Sample(raw: Option<real>, now: int)

  function Smooth(alpha: real, samples: seq<Sample>): DriftState {
    if samples == [] then Initial
    else ApplySample(alpha, Smooth(alpha, samples[..|samples| - 1]), samples[|samples| - 1].raw, samples[|samples| - 1].now)
  }

  lemma MulNonNegative(a: real, b: real)
    requires a >= 0.0 && b >= 0.0
    ensures a * b >= 0.0
  {}

  lemma Blend(alpha: real, x: real, r: real)
    requires 0.0 < alpha < 1.0
    ensures x <= r ==> x <= x + alpha * (r - x) <= r
    ensures r <= x ==> r <= x + alpha * (r - x) <= x
  {
    var d, beta := r - x, 1.0 - alpha;
    assert alpha * d + beta * d == d by {
      assert beta * d == 1.0 * d - alpha * d;
    }
    if d >= 0.0 {
      MulNonNegative(alpha, d);
      MulNonNegative(beta, d);
    } else {
      MulNonNegative(alpha, -d);
      MulNonNegative(beta, -d);
      assert alpha * -d == -(alpha * d) && beta * -d == -(beta * d);
    }
  }

  /** Two of the samples whose raw values enclose `x`. */
  ghost predicate Enclosed(samples: seq<Sample>, x: real, lo: nat, hi: nat) {
    && lo < |samples| && hi < |samples| && samples[lo].raw.Some? && samples[hi].raw.Some?
    && samples[lo].raw.value <= x <= samples[hi].raw.value
  }

  lemma EnclosedLater(samples: seq<Sample>, last: Sample, x: real, lo: nat, hi: nat)
    requires Enclosed(samples, x, lo, hi)
    ensures Enclosed(samples + [last], x, lo, hi)
  {}

  /** A value between `x` and the newest raw sample is enclosed if `x` was. */
  lemma EnclosedBlend(samples: seq<Sample>, last: Sample, x: real, y: real, lo: nat, hi: nat)
      returns (lo': nat, hi': nat)
    requires Enclosed(samples, x, lo, hi) && last.raw.Some?
    requires x <= y <= last.raw.value || last.raw.value <= y <= x
    ensures Enclosed(samples + [last], y, lo', hi')
  {
    EnclosedLater(samples, last, x, lo, hi);
    assert (samples + [last])[|samples|] == last;
    if x <= y {
      lo', hi' := lo, if y <= last.raw.value then |samples| else hi;
    } else {
      lo', hi' := |samples|, hi;
    }
  }

  /** The smoothed drift lies between two raw samples. */
  lemma {:induction false} SmoothedBetween(alpha: real, samples: seq<Sample>) returns (lo: nat, hi: nat)
    requires 0.0 < alpha < 1.0 && Smooth(alpha, samples).smoothed.Some?
    ensures Enclosed(samples, Smooth(alpha, samples).smoothed.value, lo, hi)
  {
    var n := |samples| - 1;
    var before, last := samples[..n], samples[n];
    assert samples == before + [last];
    assert Smooth(alpha, samples) == ApplySample(alpha, Smooth(alpha, before), last.raw, last.now);
    hide Smooth, ApplySample;
    var x, y := Smooth(alpha, before).smoothed, Smooth(alpha, samples).smoothed.value;
    SampleMoves(alpha, Smooth(alpha, before), last);
    if x.None? {
      lo, hi := n, n;
    } else {
      hide Enclosed;
      lo, hi := SmoothedBetween(alpha, before);
      if last.raw.None? {
        EnclosedLater(before, last, x.value, lo, hi);
      } else {
        lo, hi := EnclosedBlend(before, last, x.value, y, lo, hi);
      }
    }
  }

  /** A sample seeds the smoothed value or moves it towards itself. */
  lemma SampleMoves(alpha: real, s: DriftState, last: Sample)
    requires 0.0 < alpha < 1.0
    ensures var y := ApplySample(alpha, s, last.raw, last.now).smoothed;
            && (last.raw.None? ==> y == s.smoothed)
            && (last.raw.Some? && s.smoothed.None? ==> y == last.raw)
            && (last.raw.Some? && s.smoothed.Some? ==>
                  && y.Some?
                  && (s.smoothed.value <= y.value <= last.raw.value || last.raw.value <= y.value <= s.smoothed.value))
  {
    if last.raw.Some? && s.smoothed.Some? {
      Blend(alpha, s.smoothed.value, last.raw.value);
    }
  }

  function Pow(b: real, k: nat): real {
    if k == 0 then 1.0 else b * Pow(b, k - 1)
  }

  lemma {:induction false} PowPositive(b: real, k: nat)
    requires 0.0 < b < 1.0
    ensures 0.0 < Pow(b, k) <= 1.0
  {
    if k > 0 {
      PowPositive(b, k - 1);
      var p, rest := Pow(b, k - 1), 1.0 - b;
      assert b * p > 0.0;
      MulNonNegative(rest, p);
      assert rest * p == p - b * p;
    }
  }

  /** Bernoulli: a power below 1 decays at least like 1 / (1 + k alpha). */
  lemma {:induction false} PowDecays(alpha: real, k: nat)
    requires 0.0 < alpha < 1.0
    ensures Pow(1.0 - alpha, k) * (1.0 + alpha * k as real) <= 1.0
  {
    if k > 0 {
      PowDecays(alpha, k - 1);
      PowPositive(1.0 - alpha, k - 1);
      var p, m := Pow(1.0 - alpha, k - 1), alpha * (k - 1) as real;
      assert alpha * k as real == m + alpha;
      DecayStep(alpha, p, m);
    }
  }

  lemma DecayStep(alpha: real, p: real, m: real)
    requires 0.0 < alpha < 1.0 && p > 0.0 && m >= 0.0 && p * (1.0 + m) <= 1.0
    ensures (1.0 - alpha) * p * (1.0 + (m + alpha)) <= 1.0
  {
    assert (1.0 - alpha) * (1.0 + m + alpha) == 1.0 + m - alpha * m - alpha * alpha;
    var loss := alpha * m + alpha * alpha;
    assert alpha * m >= 0.0 && alpha * alpha >= 0.0;
    assert p * loss >= 0.0;
    assert (1.0 - alpha) * p * (1.0 + (m + alpha)) == p * ((1.0 - alpha) * (1.0 + m + alpha));
    assert p * (1.0 + m - loss) == p * (1.0 + m) - p * loss;
  }

  /** `k` more samples of the constant `c`. */
  function Feed(alpha: real, s: DriftState, c: real, now: int, k: nat): DriftState {
    if k == 0 then s else ApplySample(alpha, Feed(alpha, s, c, now, k - 1), Some(c), now)
  }

  /** A constant input is approached geometrically. */
  lemma {:induction false} Converges(alpha: real, s: DriftState, c: real, now: int, k: nat)
    requires s.smoothed.Some?
    ensures var t := Feed(alpha, s, c, now, k);
            t.smoothed.Some? && t.smoothed.value - c == Pow(1.0 - alpha, k) * (s.smoothed.value - c)
  {
    if k > 0 {
      Converges(alpha, s, c, now, k - 1);
      var x, p, d := Feed(alpha, s, c, now, k - 1).smoothed.value, Pow(1.0 - alpha, k - 1), s.smoothed.value - c;
      assert x + alpha * (c - x) - c == (1.0 - alpha) * (x - c);
      assert (1.0 - alpha) * (p * d) == (1.0 - alpha) * p * d;
    }
  }

  /** The newest raw value of the samples. */
  function LastRaw(samples: seq<Sample>): Option<real> {
    if samples == [] then None
    else if samples[|samples| - 1].raw.Some? then samples[|samples| - 1].raw
    else LastRaw(samples[..|samples| - 1])
  }

  function RealSamples(samples: seq<Sample>): nat {
    if samples == [] then 0
    else RealSamples(samples[..|samples| - 1]) + if samples[|samples| - 1].raw.Some? then 1 else 0
  }

  /** What the state records besides the smoothed value, which is there from the first real
      sample on. */
  lemma {:induction false} SmoothRecords(alpha: real, samples: seq<Sample>)
    ensures var s := Smooth(alpha, samples);
            && s.raw == LastRaw(samples) && s.sampleCount == RealSamples(samples)
            && s.lastSampleAt == (if samples == [] then None else Some(samples[|samples| - 1].now))
            && (s.smoothed.Some? <==> RealSamples(samples) > 0)
  {
    if samples != [] {
      SmoothRecords(alpha, samples[..|samples| - 1]);
    }
  }

  // ----- the indicator -----

  datatype Thresholds = Thresholds(indicator: real, severe: real)

  function ActiveThresholds(jitter: Option<int>): Thresholds {
    if jitter.Some? && jitter.value > 200 then Thresholds(3000.0, 7000.0) else Thresholds(2000.0, 5000.0)
  }

  datatype Direction = Ahead | Behind | NoDirection

  datatype DriftSample = DriftSample(smoothed: Option<real>, indicatorVisible: bool, severeVisible: bool, direction: Direction)

  function Abs(x: real): real { if x < 0.0 then -x else x }

  function DeriveSample(s: DriftState, jitter: Option<int>): DriftSample {
    match s.smoothed
    case None => DriftSample(None, false, false, NoDirection)
    case Some(x) =>
      var t := ActiveThresholds(jitter);
      DriftSample(Some(x), Abs(x) > t.indicator, Abs(x) >= t.severe,
        if x > 0.0 then Ahead else if x < 0.0 then Behind else NoDirection)
  }

  /** The indicator shows only if some raw sample, on the side it points to,
      exceeded the active threshold; and severe implies visible. */
  lemma IndicatorHasCause(alpha: real, samples: seq<Sample>, jitter: Option<int>) returns (i: nat)
    requires 0.0 < alpha < 1.0
    ensures var d := DeriveSample(Smooth(alpha, samples), jitter);
            && (d.severeVisible ==> d.indicatorVisible)
            && (d.indicatorVisible ==>
                  && d.direction != NoDirection
                  && i < |samples| && samples[i].raw.Some?
                  && (if d.direction == Ahead then samples[i].raw.value > ActiveThresholds(jitter).indicator
                      else samples[i].raw.value < -ActiveThresholds(jitter).indicator))
  {
    i := 0;
    var s := Smooth(alpha, samples);
    if s.smoothed.Some? {
      var lo, hi := SmoothedBetween(alpha, samples);
      i := if s.smoothed.value > 0.0 then hi else lo;
    }
  }

  /** The thresholds: above 200 ms of jitter 3 s and 7 s, otherwise 2 s and 5 s. The
      indicator shows strictly above the first, the severe state from the second on, and the
      direction is the sign. */
  lemma IndicatorExactly(s: DriftState, jitter: Option<int>)
    ensures var d, wide := DeriveSample(s, jitter), jitter.Some? && jitter.value >= 201;
            var shown, severe := if wide then 3000.0 else 2000.0, if wide then 7000.0 else 5000.0;
            && d.smoothed == s.smoothed
            && (d.indicatorVisible <==> s.smoothed.Some? && (s.smoothed.value > shown || s.smoothed.value < -shown))
            && (d.severeVisible <==> s.smoothed.Some? && (s.smoothed.value >= severe || s.smoothed.value <= -severe))
            && (d.direction == Ahead <==> s.smoothed.Some? && s.smoothed.value > 0.0)
            && (d.direction == Behind <==> s.smoothed.Some? && s.smoothed.value < 0.0)
  {}

  /** It does show if every real sample is beyond the threshold on one side. */
  lemma IndicatorShows(alpha: real, samples: seq<Sample>, jitter: Option<int>, ahead: bool)
    requires 0.0 < alpha < 1.0 && RealSamples(samples) > 0
    requires forall i :: 0 <= i < |samples| && samples[i].raw.Some? ==>
               if ahead then samples[i].raw.value > ActiveThresholds(jitter).indicator
               else samples[i].raw.value < -ActiveThresholds(jitter).indicator
    ensures var d := DeriveSample(Smooth(alpha, samples), jitter);
            d.indicatorVisible && d.direction == if ahead then Ahead else Behind
  {
    SmoothRecords(alpha, samples);
    var lo, hi := SmoothedBetween(alpha, samples);
    hide Smooth;
  }

  // ----- the room median -----

  datatype Participant = Participant(userId: string, positionMs: int, playing: bool, receivedAtMs: int)

  const STALE_REPORT_MS: int := 10000

  predicate Fresh(p: Participant, now: int) {
    p.playing && 0 <= now - p.receivedAtMs <= STALE_REPORT_MS
  }

  function Predicted(ps: seq<Participant>, now: int): seq<int> {
    if ps == [] then []
    else
      var p := ps[|ps| - 1];
      Predicted(ps[..|ps| - 1], now) + if Fresh(p, now) then [p.positionMs + (now - p.receivedAtMs)] else []
  }

  function ExactMedian(xs: seq<int>): real
    requires xs != []
  {
    var mid := |xs| / 2;
    if |xs| % 2 == 1 then xs[mid] as real else (xs[mid - 1] + xs[mid]) as real / 2.0
  }

  method CollectFresh(ps: seq<Participant>, now: int) returns (predicted: seq<int>)
    ensures predicted == Predicted(ps, now)
    ensures predicted == [] <==> forall p :: p in ps ==> !Fresh(p, now)
  {
    predicted := [];
    var i := 0;
    while i < |ps|
      invariant i <= |ps| && predicted == Predicted(ps[..i], now)
      invariant predicted == [] <==> forall k :: 0 <= k < i ==> !Fresh(ps[k], now)
    {
      assert ps[..i + 1][..i] == ps[..i];
      var age := now - ps[i].receivedAtMs;
      if ps[i].playing && 0 <= age && age <= STALE_REPORT_MS {
        predicted := predicted + [ps[i].positionMs + age];
      }
      i := i + 1;
    }
    assert ps[..i] == ps;
  }

  method ComputeRoomMedian(ps: seq<Participant>, now: int) returns (median: Option<real>)
    ensures median.None? <==> forall p :: p in ps ==> !Fresh(p, now)
    ensures median.Some? ==> (
            && Predicted(ps, now) != [] && |Sort(Predicted(ps, now))| == |Predicted(ps, now)|
            && median.value == ExactMedian(Sort(Predicted(ps, now))))
  {
    hide Sort, Predicted, Fresh;
    var predicted := CollectFresh(ps, now);
    if |predicted| == 0 {
      return None;
    }
    SortSorts(predicted);
    var sorted := Sort(predicted);
    var mid := |sorted| / 2;
    if |sorted| % 2 == 1 {
      return Some(sorted[mid] as real);
    }
    return Some((sorted[mid - 1] + sorted[mid]) as real / 2.0);
  }

  /** Reports are judged one by one: a playing participant counts exactly if its report is 0
      to 10 s old, with the position it has reached since. */
  lemma {:induction false} ReportsJudged(ps: seq<Participant>, qs: seq<Participant>, p: Participant, now: int)
    ensures Predicted(ps + qs, now) == Predicted(ps, now) + Predicted(qs, now)
    ensures var age := now - p.receivedAtMs;
            Predicted([p], now) == if p.playing && 0 <= age <= 10000 then [p.positionMs + age] else []
    decreases |qs|
  {
    assert [p][..0] == [];
    if qs == [] {
      assert ps + qs == ps;
    } else {
      ReportsJudged(ps, qs[..|qs| - 1], p, now);
      assert (ps + qs)[..|ps + qs| - 1] == ps + qs[..|qs| - 1];
    }
  }

  /** The median is exactly the middle of the two middle elements. */
  lemma ExactMedianExactly(s: seq<int>)
    requires s != []
    ensures 2.0 * ExactMedian(s) == (s[(|s| - 1) / 2] + s[|s| / 2]) as real
  {}

  lemma SortedSplits(s: seq<int>)
    requires s != [] && IsSorted(s)
    ensures forall i :: 0 <= i < (|s| + 1) / 2 ==> s[i] as real <= ExactMedian(s)
    ensures forall i :: |s| / 2 <= i < |s| ==> ExactMedian(s) <= s[i] as real
  {}

  /** The median splits the predictions: half of them are at most it and half at
      least it; and it does not depend on the order of the participants. */
  lemma MedianSplits(xs: seq<int>, ys: seq<int>)
    requires xs != []
    ensures |Sort(xs)| == |xs|
    ensures var s, m := Sort(xs), ExactMedian(Sort(xs));
            && multiset(s) == multiset(xs)
            && (forall i :: 0 <= i < (|s| + 1) / 2 ==> s[i] as real <= m)
            && (forall i :: |s| / 2 <= i < |s| ==> m <= s[i] as real)
    ensures multiset(xs) == multiset(ys) ==> Sort(ys) == Sort(xs)
  {
    hide Sort, ExactMedian, IsSorted;
    SortSorts(xs);
    SortSorts(ys);
    SortedSplits(Sort(xs));
    if multiset(xs) == multiset(ys) {
      SortedUnique(Sort(xs), Sort(ys));
    }
  }
}
