/** The rate gate: with a clock that does not go back, no half-open second holds
    more than 80 gated POINTs, across all strokes
    (apps/client/src/drawing/drawingSession.ts:70, 259-263, 344-387). */
module DrawingRate {
  import opened Wrappers
  import opened DrawingModel
  import opened DrawingOrder

  /** The clock reading of an event that may flush. */
  function TimeOf(ev: Event): Option<real> {
    match ev
    case BeginCall(_, _, _, now, _) => Some(now)
    case EndCall(now, _) => Some(now)
    case Frame(now) => Some(now)
    case _ => None
  }

  ghost predicate Clock(evs: seq<Event>) {
    forall i, j :: 0 <= i < j < |evs| && TimeOf(evs[i]).Some? && TimeOf(evs[j]).Some? ==>
      TimeOf(evs[i]).value <= TimeOf(evs[j]).value
  }

  ghost predicate InWindow(t: real, a: real) {
    a <= t < a + 1000.0
  }

  ghost function Gated(fs: seq<Flush>, a: real): nat {
    if fs == [] then 0
    else
      var f := fs[|fs| - 1];
      Gated(fs[..|fs| - 1], a) + if !f.forced && InWindow(f.at, a) then 1 else 0
  }

  ghost function Flushed(fs: seq<Flush>, a: real): nat {
    if fs == [] then 0
    else Flushed(fs[..|fs| - 1], a) + if InWindow(fs[|fs| - 1].at, a) then 1 else 0
  }

  /** The last event of the run ends an open stroke, directly or by beginning another. */
  ghost predicate EndsStroke(evs: seq<Event>)
    requires evs != []
  {
    var ev := evs[|evs| - 1];
    (ev.EndCall? || ev.BeginCall?) && Run(evs[..|evs| - 1]).active.Some?
  }

  /** The ends of strokes in the window: each stroke has at most one. */
  ghost function StrokeEnds(evs: seq<Event>, a: real): nat {
    if evs == [] then 0
    else
      StrokeEnds(evs[..|evs| - 1], a)
      + if EndsStroke(evs) && InWindow(TimeOf(evs[|evs| - 1]).value, a) then 1 else 0
  }

  /** Flush times do not decrease and a gated flush keeps its distance. */
  ghost predicate Spaced(fs: seq<Flush>) {
    forall i, j :: 0 <= i < j < |fs| ==>
      fs[i].at <= fs[j].at && (!fs[j].forced ==> fs[j].at - fs[i].at >= MIN_FLUSH_INTERVAL_MS)
  }

  lemma {:induction false} GatedBound(fs: seq<Flush>, a: real) returns (g: nat)
    requires Spaced(fs) && Gated(fs, a) > 0
    ensures g < |fs| && !fs[g].forced && InWindow(fs[g].at, a)
    ensures MIN_FLUSH_INTERVAL_MS * (Gated(fs, a) - 1) as real <= fs[g].at - a
  {
    var n := |fs| - 1;
    if !fs[n].forced && InWindow(fs[n].at, a) {
      g := n;
      if Gated(fs[..n], a) > 0 {
        var h := GatedBound(fs[..n], a);
        assert fs[n].at - fs[h].at >= MIN_FLUSH_INTERVAL_MS;
      }
    } else {
      g := GatedBound(fs[..n], a);
    }
  }

  // ----- how the log of flushes grows -----

  lemma EnqueueFlushes(s: Session, stroke: nat, input: Input)
    ensures var s' := Enqueue(s, stroke, input);
            && s'.flushes == s.flushes && s'.lastFlush == s.lastFlush
            && s'.enqueued == s.enqueued + [Task(|s.enqueued|, stroke, input)]
  {}

  /** A flush is logged exactly when a POINT is enqueued. */
  ghost predicate LogMatches(s: Session) {
    && |s.flushes| == |PointsIn(s.enqueued)|
    && s.lastFlush == (if s.flushes == [] then None else Some(s.flushes[|s.flushes| - 1].at))
  }

  /** What one event adds to the log. */
  ghost predicate Adds(s: Session, s': Session, now: real, force: bool) {
    || s'.flushes == s.flushes
    || (&& s'.flushes == s.flushes + [Flush(now, force)]
        && (force || s.lastFlush.None? || now - s.lastFlush.value >= MIN_FLUSH_INTERVAL_MS))
  }

  lemma FlushAdds(s: Session, force: bool, now: real)
    requires LogMatches(s)
    ensures LogMatches(FlushPending(s, force, now)) && Adds(s, FlushPending(s, force, now), now, force)
  {
    hide Enqueue, PointsIn;
    var s' := FlushPending(s, force, now);
    if s' != s {
      var a := s.active.value;
      var input := Point(a.id, s.pendingPoint.value, s.activeSeq + 1);
      EnqueueFlushes(s.(pendingPoint := None, lastFlush := Some(now), activeSeq := s.activeSeq + 1,
                        flushes := s.flushes + [Flush(now, force)]), a.no, input);
      PointsAppend(s.enqueued, [Task(|s.enqueued|, a.no, input)]);
      PointsOne(Task(|s.enqueued|, a.no, input));
    }
  }

  lemma EnqueueMatches(s: Session, stroke: nat, input: Input)
    requires LogMatches(s) && !input.Point?
    ensures LogMatches(Enqueue(s, stroke, input)) && Enqueue(s, stroke, input).flushes == s.flushes
  {
    EnqueueFlushes(s, stroke, input);
    PointsAppend(s.enqueued, [Task(|s.enqueued|, stroke, input)]);
    PointsOne(Task(|s.enqueued|, stroke, input));
  }

  lemma EndAdds(s: Session, now: real, endTs: real)
    requires LogMatches(s)
    ensures LogMatches(EndStroke(s, now, endTs)) && Adds(s, EndStroke(s, now, endTs), now, true)
  {
    hide FlushPending, Enqueue, PointsIn;
    if s.active.Some? {
      FlushAdds(s, true, now);
      var s1 := FlushPending(s, true, now);
      var s2 := s1.(frame := false, active := None, pendingPoint := None, activeSeq := s1.activeSeq + 1);
      EnqueueMatches(s2, s.active.value.no, End(s.active.value.id, endTs, s1.activeSeq + 1));
    }
  }

  lemma PumpSame(s: Session)
    ensures var s' := Pump(s);
            s'.flushes == s.flushes && s'.lastFlush == s.lastFlush && s'.enqueued == s.enqueued
  {}

  lemma ApplyAdds(s: Session, ev: Event)
    requires LogMatches(s)
    ensures LogMatches(Apply(s, ev))
    ensures match TimeOf(ev)
            case Some(now) => Adds(s, Apply(s, ev), now, !ev.Frame?)
            case None => Apply(s, ev).flushes == s.flushes
  {
    hide FlushPending, Enqueue, EndStroke, Pump, PointsIn;
    match ev
    case BeginCall(id, style, at, now, endTs) =>
      EndAdds(s, now, endTs);
      var s1 := EndStroke(s, now, endTs);
      EnqueueMatches(s1.(active := Some(Stroke(s1.strokes, id)), activeSeq := 1, pendingPoint := None, strokes := s1.strokes + 1),
                     s1.strokes, Begin(id, style, at, 1));
    case AppendCall(at) =>
    case EndCall(now, endTs) => EndAdds(s, now, endTs);
    case CancelCall =>
    case UndoCall(id) => EnqueueMatches(s.(strokes := s.strokes + 1), s.strokes, Undo(id));
    case ClearCall => EnqueueMatches(s.(strokes := s.strokes + 1), s.strokes, Clear);
    case Frame(now) => FlushAdds(s.(frame := false), false, now);
    case Answer(promise, ok) =>
      if s.flight.Some? {
        var t := s.flight.value.task;
        PumpSame(s.(failed := if !ok && t.input.Begin? then s.failed + {t.stroke} else s.failed,
                    outcome := s.outcome[promise := if ok then Sent else SendFailed]));
      }
    case Resumed =>
      if s.flight.Some? {
        PumpSame(s.(outcome := s.outcome[s.flight.value.task.promise := Skipped]));
      }
  }

  ghost predicate Until(evs: seq<Event>, t: real) {
    forall i :: 0 <= i < |evs| && TimeOf(evs[i]).Some? ==> TimeOf(evs[i]).value <= t
  }

  lemma {:induction false} RunMatches(evs: seq<Event>)
    ensures LogMatches(Run(evs))
  {
    hide Apply;
    if evs != [] {
      RunMatches(evs[..|evs| - 1]);
      ApplyAdds(Run(evs[..|evs| - 1]), evs[|evs| - 1]);
    }
  }

  lemma {:induction false} FlushTimes(evs: seq<Event>, t: real)
    requires Until(evs, t)
    ensures forall i :: 0 <= i < |Run(evs).flushes| ==> Run(evs).flushes[i].at <= t
  {
    hide Apply, LogMatches;
    if evs != [] {
      var before := evs[..|evs| - 1];
      assert Until(before, t) by {
        assert forall i :: 0 <= i < |before| ==> before[i] == evs[i];
      }
      FlushTimes(before, t);
      RunMatches(before);
      ApplyAdds(Run(before), evs[|evs| - 1]);
    }
  }

  lemma {:induction false} RunSpaced(evs: seq<Event>)
    requires Clock(evs)
    ensures Spaced(Run(evs).flushes)
  {
    hide Apply, PointsIn;
    if evs != [] {
      var before, ev := evs[..|evs| - 1], evs[|evs| - 1];
      RunSpaced(before);
      RunMatches(before);
      ApplyAdds(Run(before), ev);
      if TimeOf(ev).Some? {
        assert Until(before, TimeOf(ev).value) by {
          assert forall i :: 0 <= i < |before| ==> before[i] == evs[i];
        }
        FlushTimes(before, TimeOf(ev).value);
      }
    }
  }

  /** Ending or beginning a stroke while none is open flushes nothing. */
  lemma IdleFlushesNothing(s: Session, ev: Event)
    requires s.active.None? && (ev.EndCall? || ev.BeginCall?)
    ensures Apply(s, ev).flushes == s.flushes
  {
    hide Pump, DropOldestPoint;
    if ev.BeginCall? {
      assert EndStroke(s, ev.now, ev.endTs) == s;
      EnqueueFlushes(s.(active := Some(Stroke(s.strokes, ev.id)), activeSeq := 1, pendingPoint := None, strokes := s.strokes + 1),
                     s.strokes, Begin(ev.id, ev.style, ev.at, 1));
    }
  }

  /** What one event adds to the log: a gated flush in a frame, or a forced one when
      it ends an open stroke. */
  lemma EventFlushes(s: Session, ev: Event)
    requires LogMatches(s)
    ensures var fs, fs' := s.flushes, Apply(s, ev).flushes;
            || fs' == fs
            || (ev.Frame? && fs' == fs + [Flush(ev.now, false)])
            || ((ev.EndCall? || ev.BeginCall?) && s.active.Some? && fs' == fs + [Flush(ev.now, true)])
  {
    hide Apply, LogMatches;
    ApplyAdds(s, ev);
    if (ev.EndCall? || ev.BeginCall?) && s.active.None? {
      IdleFlushesNothing(s, ev);
    }
  }

  lemma CountOne(fs: seq<Flush>, f: Flush, a: real)
    ensures Flushed(fs + [f], a) == Flushed(fs, a) + if InWindow(f.at, a) then 1 else 0
    ensures Gated(fs + [f], a) == Gated(fs, a) + if !f.forced && InWindow(f.at, a) then 1 else 0
  {
    assert (fs + [f])[..|fs|] == fs;
  }

  lemma {:induction false} ForcedByEnds(evs: seq<Event>, a: real)
    ensures Flushed(Run(evs).flushes, a) <= Gated(Run(evs).flushes, a) + StrokeEnds(evs, a)
  {
    hide Apply, LogMatches, Flushed, Gated, InWindow;
    if evs == [] {
      assert Run(evs).flushes == [];
      NoneCounted(a);
    } else {
      var before, ev := evs[..|evs| - 1], evs[|evs| - 1];
      ForcedByEnds(before, a);
      RunMatches(before);
      EventFlushes(Run(before), ev);
      if TimeOf(ev).Some? {
        CountOne(Run(before).flushes, Flush(TimeOf(ev).value, !ev.Frame?), a);
      }
    }
  }

  lemma NoneCounted(a: real)
    ensures Flushed([], a) == 0 && Gated([], a) == 0
  {}

  /** In any half-open 1000 ms window at most 80 rate-gated POINTs are enqueued,
      and at most 80 plus the number of strokes ended in the window in total. */
  lemma RateBound(evs: seq<Event>, a: real)
    requires Clock(evs)
    ensures |Run(evs).flushes| == |PointsIn(Run(evs).enqueued)|
    ensures Gated(Run(evs).flushes, a) <= 80
    ensures Flushed(Run(evs).flushes, a) <= 80 + StrokeEnds(evs, a)
  {
    hide Run;
    RunSpaced(evs);
    RunMatches(evs);
    ForcedByEnds(evs, a);
    if Gated(Run(evs).flushes, a) > 0 {
      var g := GatedBound(Run(evs).flushes, a);
    }
  }
}
