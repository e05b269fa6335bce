/** Which POINTs are lost, over whole runs (apps/client/src/drawing/drawingSession.ts:30-35
    and 396-447): exactly those behind which 32 newer ones were enqueued while they
    waited. */
module DrawingLosses {
  import opened Wrappers
  import opened DrawingModel
  import opened DrawingOrder
  import opened DrawingStrokes
  import opened DrawingOverflow

  /** How many POINTs, of any stroke, were enqueued after `t`. */
  function Newer(s: Session, t: Task): nat
    requires t.promise < |s.enqueued|
  {
    |PointsIn(s.enqueued[t.promise + 1..])|
  }

  lemma {:induction false} PointsAscend(log: seq<Task>)
    requires Increasing(log)
    ensures Increasing(PointsIn(log)) && forall t :: t in PointsIn(log) <==> t in log && t.input.Point?
  {
    if log != [] {
      var n := |log| - 1;
      assert log == log[..n] + [log[n]];
      PointsAscend(log[..n]);
      forall u | u in PointsIn(log[..n])
        ensures u.promise < log[n].promise
      {
        assert u in log[..n];
      }
    }
  }

  lemma LogAscends(s: Session)
    requires Ordered(s)
    ensures Increasing(s.enqueued)
  {}

  /** Position of a POINT among all POINTs, counted from the end. */
  lemma RankInLog(s: Session, t: Task)
    requires Ordered(s) && Logged(s.enqueued, t) && t.input.Point?
    ensures var all := PointsIn(s.enqueued);
            Newer(s, t) < |all| && all[|all| - 1 - Newer(s, t)] == t
  {
    hide PointsIn;
    var p := t.promise;
    var before, after := s.enqueued[..p], s.enqueued[p + 1..];
    assert s.enqueued == before + ([t] + after);
    PointsAppend(before, [t] + after);
    PointsAppend([t], after);
    PointsOne(t);
  }

  /** A waiting POINT has at most 31 newer ones behind it; it has 31 exactly if 32 wait
      and it is the oldest of them. */
  lemma WaitingRank(s: Session, t: Task)
    requires QueueInv(s) && t in s.tasks && t.input.Point?
    ensures Logged(s.enqueued, t) && Newer(s, t) <= 31
    ensures |PointsIn(s.tasks)| == s.queuedPoints
    ensures Newer(s, t) == 31 <==> s.queuedPoints == MAX_QUEUED_POINTS && PointsIn(s.tasks)[0] == t
  {
    hide PointsIn, Accounted, Truthful, Increasing;
    LogAscends(s);
    PointsAscend(s.tasks);
    PointsAscend(s.enqueued);
    RankInLog(s, t);
    var waiting, all := PointsIn(s.tasks), PointsIn(s.enqueued);
    var i :| 0 <= i < |waiting| && waiting[i] == t;
    assert all[|all| - |waiting|..][i] == waiting[i];
    SamePlace(all, |all| - |waiting| + i, |all| - 1 - Newer(s, t));
    SamePlace(waiting, 0, i);
  }

  lemma SamePlace(log: seq<Task>, i: nat, j: nat)
    requires Increasing(log) && i < |log| && j < |log|
    ensures log[i] == log[j] <==> i == j
  {}

  lemma NewerAppend(s: Session, u: Task, t: Task)
    requires t.promise < |s.enqueued|
    ensures Newer(s.(enqueued := s.enqueued + [u]), t) == Newer(s, t) + if u.input.Point? then 1 else 0
  {
    hide PointsIn;
    var after := s.enqueued[t.promise + 1..];
    assert (s.enqueued + [u])[t.promise + 1..] == after + [u];
    PointsAppend(after, [u]);
    PointsOne(u);
  }

  lemma NewerSame(s: Session, s': Session, t: Task)
    requires t.promise < |s.enqueued| && s'.enqueued == s.enqueued
    ensures Newer(s', t) == Newer(s, t)
  {}

  // ----- what one event does to a waiting POINT -----

  /** `t` is still here with fewer than 32 newer ones, or dropped behind exactly 32. */
  ghost predicate Decided(s: Session, t: Task) {
    && Logged(s.enqueued, t) && Newer(s, t) <= 32
    && (SettledAs(s, t, Dropped) <==> Newer(s, t) == 32)
  }

  lemma EnqueueDecides(s: Session, stroke: nat, input: Input, t: Task)
    requires QueueInv(s) && t in s.tasks && t.input.Point?
    ensures var s' := Enqueue(s, stroke, input);
            && Decided(s', t)
            && (!input.Point? ==> t in s'.tasks && !SettledAs(s', t, Dropped))
  {
    hide QueueInv, PointsIn, DropOldestPoint, Increasing, Pump;
    var u := Task(|s.enqueued|, stroke, input);
    Waiting(s, t);
    WaitingRank(s, t);
    LostExactlyOnOverflow(s, stroke, input, t);
    EnqueueFrame(s, stroke, input);
    NewerAppend(s, u, t);
    NewerSame(s.(enqueued := s.enqueued + [u]), Enqueue(s, stroke, input), t);
  }

  /** Enqueueing what is not a POINT decides nothing anew. */
  lemma PlainEnqueue(s: Session, stroke: nat, input: Input, t: Task)
    requires QueueInv(s) && Decided(s, t) && !input.Point? && t.input.Point?
    ensures Decided(Enqueue(s, stroke, input), t)
  {
    hide QueueInv, PointsIn, DropOldestPoint;
    var u := Task(|s.enqueued|, stroke, input);
    NewerAppend(s, u, t);
    NewerSame(s.(enqueued := s.enqueued + [u]), Enqueue(s, stroke, input), t);
    EnqueueFrame(s, stroke, input);
  }

  lemma WaitingDecided(s: Session, t: Task)
    requires QueueInv(s) && t in s.tasks && t.input.Point?
    ensures Decided(s, t)
  {
    hide QueueInv, PointsIn;
    WaitingRank(s, t);
    Waiting(s, t);
  }

  lemma SameDecided(s: Session, s': Session, t: Task)
    requires Decided(s, t) && s'.enqueued == s.enqueued && s'.outcome == s.outcome
    ensures Decided(s', t)
  {
    hide PointsIn;
  }

  lemma FlushDecides(s: Session, force: bool, now: real, t: Task)
    requires QueueInv(s) && t in s.tasks && t.input.Point?
    ensures Decided(FlushPending(s, force, now), t)
  {
    hide QueueInv, Decided, Enqueue;
    WaitingDecided(s, t);
    if s.active.Some? && s.pendingPoint.Some? {
      var s1 := s.(pendingPoint := None, lastFlush := Some(now), activeSeq := s.activeSeq + 1,
                   flushes := s.flushes + [Flush(now, force)]);
      SameQueue(s, s1);
      EnqueueDecides(s1, s.active.value.no, Point(s.active.value.id, s.pendingPoint.value, s.activeSeq + 1), t);
    }
  }

  lemma EndDecides(s: Session, now: real, endTs: real, t: Task)
    requires QueueInv(s) && t in s.tasks && t.input.Point?
    ensures Decided(EndStroke(s, now, endTs), t)
  {
    hide QueueInv, Decided, Enqueue, FlushPending;
    WaitingDecided(s, t);
    if s.active.Some? {
      FlushDecides(s, true, now, t);
      FlushKeeps(s, true, now);
      var s1 := FlushPending(s, true, now);
      var s2 := s1.(frame := false, active := None, pendingPoint := None, activeSeq := s1.activeSeq + 1);
      SameQueue(s1, s2);
      SameDecided(s1, s2, t);
      PlainEnqueue(s2, s.active.value.no, End(s.active.value.id, endTs, s1.activeSeq + 1), t);
    }
  }

  lemma ControlDecides(s: Session, input: Input, t: Task)
    requires QueueInv(s) && t in s.tasks && t.input.Point? && !input.Point?
    ensures Decided(Enqueue(s.(strokes := s.strokes + 1), s.strokes, input), t)
  {
    hide QueueInv, Decided, Enqueue;
    WaitingDecided(s, t);
    var s1 := s.(strokes := s.strokes + 1);
    SameQueue(s, s1);
    SameDecided(s, s1, t);
    PlainEnqueue(s1, s.strokes, input, t);
  }

  lemma BeginDecides(s: Session, id: string, style: Style, at: Position, now: real, endTs: real, t: Task)
    requires QueueInv(s) && t in s.tasks && t.input.Point?
    ensures Decided(BeginStroke(s, id, style, at, now, endTs), t)
  {
    hide QueueInv, Decided, Enqueue, EndStroke;
    EndDecides(s, now, endTs, t);
    EndKeeps(s, now, endTs);
    var s1 := EndStroke(s, now, endTs);
    var s2 := s1.(active := Some(Stroke(s1.strokes, id)), activeSeq := 1, pendingPoint := None, strokes := s1.strokes + 1);
    SameQueue(s1, s2);
    SameDecided(s1, s2, t);
    PlainEnqueue(s2, s1.strokes, Begin(id, style, at, 1), t);
  }

  lemma SettlesAnother(s: Session, s': Session, t: Task, p: nat, o: Outcome)
    requires Decided(s, t) && s'.enqueued == s.enqueued && s'.outcome == s.outcome[p := o]
    requires o != Dropped && (p == t.promise ==> !SettledAs(s, t, Dropped))
    ensures Decided(s', t)
  {
    hide PointsIn;
  }

  lemma PumpSame(s: Session)
    ensures Pump(s).enqueued == s.enqueued && Pump(s).outcome == s.outcome
  {}

  lemma SettleDecides(s: Session, ev: Event, t: Task)
    requires QueueInv(s) && t in s.tasks && t.input.Point? && (ev.Answer? || ev.Resumed?)
    ensures Decided(Apply(s, ev), t)
  {
    hide QueueInv, Decided, Pump;
    WaitingDecided(s, t);
    Waiting(s, t);
    var s' := Apply(s, ev);
    if s.flight.Some? {
      var u := s.flight.value.task;
      var failed := if ev.Answer? && !ev.ok && u.input.Begin? then s.failed + {u.stroke} else s.failed;
      PumpSame(s.(failed := failed, outcome := s.outcome[u.promise := Sent]));
      PumpSame(s.(failed := failed, outcome := s.outcome[u.promise := SendFailed]));
      PumpSame(s.(outcome := s.outcome[u.promise := Skipped]));
      if s' != s {
        SettlesAnother(s, s', t, u.promise, s'.outcome[u.promise]);
      }
    }
  }

  lemma ApplyDecides(s: Session, ev: Event, t: Task)
    requires QueueInv(s) && t in s.tasks && t.input.Point?
    ensures Decided(Apply(s, ev), t)
  {
    hide QueueInv, Decided, Enqueue, FlushPending, EndStroke, BeginStroke, Settle, Resume;
    WaitingDecided(s, t);
    match ev
    case BeginCall(id, style, at, now, endTs) => BeginDecides(s, id, style, at, now, endTs, t);
    case AppendCall(at) => SameDecided(s, AppendPoint(s, at), t);
    case EndCall(now, endTs) => EndDecides(s, now, endTs, t);
    case CancelCall => SameDecided(s, CancelStroke(s), t);
    case UndoCall(id) => ControlDecides(s, Undo(id), t);
    case ClearCall => ControlDecides(s, Clear, t);
    case Frame(now) =>
      if s.frame {
        SameQueue(s, s.(frame := false));
        FlushDecides(s.(frame := false), false, now, t);
        SameDecided(FlushPending(s.(frame := false), false, now), FrameFires(s, now), t);
      }
    case Answer(promise, ok) => SettleDecides(s, ev, t);
    case Resumed => SettleDecides(s, ev, t);
  }

  // ----- only waiting POINTs are dropped -----

  /** What is newly dropped was waiting. */
  ghost predicate DropsWaiting(s: Session, s': Session) {
    forall p :: p in s'.outcome && s'.outcome[p] == Dropped ==>
      (p in s.outcome && s.outcome[p] == Dropped) || exists u :: u in s.tasks && u.promise == p
  }

  lemma EnqueueDrops(s: Session, stroke: nat, input: Input)
    ensures DropsWaiting(s, Enqueue(s, stroke, input))
    ensures !input.Point? ==> Enqueue(s, stroke, input).outcome == s.outcome
  {
    hide FirstPoint;
  }

  lemma FlushDrops(s: Session, force: bool, now: real)
    ensures DropsWaiting(s, FlushPending(s, force, now))
  {
    hide Enqueue;
    if s.active.Some? && s.pendingPoint.Some? {
      EnqueueDrops(s.(pendingPoint := None, lastFlush := Some(now), activeSeq := s.activeSeq + 1,
                      flushes := s.flushes + [Flush(now, force)]),
                   s.active.value.no, Point(s.active.value.id, s.pendingPoint.value, s.activeSeq + 1));
    }
  }

  lemma EndDrops(s: Session, now: real, endTs: real)
    ensures DropsWaiting(s, EndStroke(s, now, endTs))
  {
    hide Enqueue, FlushPending;
    if s.active.Some? {
      FlushDrops(s, true, now);
      var s1 := FlushPending(s, true, now);
      EnqueueDrops(s1.(frame := false, active := None, pendingPoint := None, activeSeq := s1.activeSeq + 1),
                   s.active.value.no, End(s.active.value.id, endTs, s1.activeSeq + 1));
    }
  }

  lemma ApplyDrops(s: Session, ev: Event)
    ensures DropsWaiting(s, Apply(s, ev))
  {
    hide Enqueue, FlushPending, EndStroke, Pump;
    match ev
    case BeginCall(id, style, at, now, endTs) =>
      EndDrops(s, now, endTs);
      var s1 := EndStroke(s, now, endTs);
      EnqueueDrops(s1.(active := Some(Stroke(s1.strokes, id)), activeSeq := 1, pendingPoint := None, strokes := s1.strokes + 1),
                   s1.strokes, Begin(id, style, at, 1));
    case AppendCall(at) =>
    case EndCall(now, endTs) => EndDrops(s, now, endTs);
    case CancelCall =>
    case UndoCall(id) => EnqueueDrops(s.(strokes := s.strokes + 1), s.strokes, Undo(id));
    case ClearCall => EnqueueDrops(s.(strokes := s.strokes + 1), s.strokes, Clear);
    case Frame(now) => FlushDrops(s.(frame := false), false, now);
    case Answer(promise, ok) =>
      if s.flight.Some? {
        var t := s.flight.value.task;
        PumpSame(s.(failed := if !ok && t.input.Begin? then s.failed + {t.stroke} else s.failed,
                    outcome := s.outcome[promise := if ok then Sent else SendFailed]));
      }
    case Resumed =>
      if s.flight.Some? {
        PumpSame(s.(outcome := s.outcome[s.flight.value.task.promise := Skipped]));
      }
  }

  // ----- over whole runs -----

  /** `t` waited before event `k`, and event `k` brought the 32nd newer POINT. */
  ghost predicate Overtaken(evs: seq<Event>, t: Task, k: nat) {
    && k < |evs| && t in Run(evs[..k]).tasks
    && t.promise < |Run(evs[..k + 1]).enqueued| && Newer(Run(evs[..k + 1]), t) == 32
  }

  lemma OvertakenPrefix(evs: seq<Event>, n: nat, t: Task, k: nat)
    requires k < n <= |evs|
    ensures Overtaken(evs[..n], t, k) <==> Overtaken(evs, t, k)
  {
    hide Run, Newer;
    assert evs[..n][..k] == evs[..k] && evs[..n][..k + 1] == evs[..k + 1];
  }

  /** A POINT is lost exactly if 32 newer POINTs were enqueued before it was taken from
      the queue. */
  lemma {:induction false} LostExactlyWhen(evs: seq<Event>, t: Task)
    requires t in Run(evs).enqueued && t.input.Point?
    ensures SettledAs(Run(evs), t, Dropped) <==> exists k: nat :: Overtaken(evs, t, k)
  {
    hide QueueInv, StrokeInv, Apply, DropsWaiting, Extends, Overtaken;
    var n := |evs| - 1;
    var before, s, s' := evs[..n], Run(evs[..n]), Run(evs);
    Reachable(before);
    Reachable(evs);
    ApplyExtends(s, evs[n]);
    ApplyDrops(s, evs[n]);
    if t in s.tasks {
      ApplyDecides(s, evs[n], t);
      LastEvent(evs, t);
      WaitingNotDropped(s, t);
      WaitingKnown(s, t);
      LostExactlyWhen(before, t);
      Shift(evs, t);
    } else {
      NotOvertakenNow(evs, t);
      NotWaiting(s, s', t);
      Shift(evs, t);
      if t in s.enqueued {
        LostExactlyWhen(before, t);
      } else {
        UnknownNeverOvertaken(before, t);
      }
    }
  }

  lemma LastEvent(evs: seq<Event>, t: Task)
    requires evs != [] && t in Run(evs[..|evs| - 1]).tasks && Decided(Run(evs), t)
    ensures Overtaken(evs, t, |evs| - 1) <==> SettledAs(Run(evs), t, Dropped)
  {
    hide Run, Newer;
    assert evs[..|evs| - 1 + 1] == evs;
  }

  lemma WaitingKnown(s: Session, t: Task)
    requires QueueInv(s) && t in s.tasks
    ensures t in s.enqueued
  {
    Waiting(s, t);
  }

  lemma WaitingNotDropped(s: Session, t: Task)
    requires QueueInv(s) && t in s.tasks
    ensures !SettledAs(s, t, Dropped)
  {
    hide QueueInv;
    Waiting(s, t);
  }

  lemma NotOvertakenNow(evs: seq<Event>, t: Task)
    requires evs != [] && t !in Run(evs[..|evs| - 1]).tasks
    ensures !Overtaken(evs, t, |evs| - 1)
  {}

  lemma Shift(evs: seq<Event>, t: Task)
    requires evs != []
    ensures var before := evs[..|evs| - 1];
            (exists k: nat :: Overtaken(evs, t, k))
            <==> (exists k: nat :: Overtaken(before, t, k)) || Overtaken(evs, t, |evs| - 1)
  {
    hide Run, Newer;
    var n := |evs| - 1;
    forall k | 0 <= k < n
      ensures Overtaken(evs[..n], t, k) <==> Overtaken(evs, t, k)
    {
      OvertakenPrefix(evs, n, t, k);
    }
    if k: nat :| Overtaken(evs, t, k) {
      assert k < n ==> Overtaken(evs[..n], t, k);
    }
    if k: nat :| Overtaken(evs[..n], t, k) {
      assert Overtaken(evs, t, k);
    }
  }

  lemma NotWaiting(s: Session, s': Session, t: Task)
    requires QueueInv(s) && QueueInv(s') && Extends(s, s') && DropsWaiting(s, s') && t in s'.enqueued && t !in s.tasks
    ensures SettledAs(s', t, Dropped) <==> SettledAs(s, t, Dropped)
    ensures t !in s.enqueued ==> !SettledAs(s, t, Dropped)
  {
    hide Truthful, Bounded, PointsIn;
    assert Logged(s'.enqueued, t);
    forall u | u in s.tasks
      ensures u.promise != t.promise
    {
      assert Logged(s.enqueued, u);
      assert s'.enqueued[u.promise] == u;
    }
  }

  /** What has not been enqueued yet has not been overtaken. */
  lemma UnknownNeverOvertaken(evs: seq<Event>, t: Task)
    requires t !in Run(evs).enqueued
    ensures forall k: nat :: !Overtaken(evs, t, k)
  {
    forall k: nat
      ensures !Overtaken(evs, t, k)
    {
      if Overtaken(evs, t, k) {
        KnownLater(evs, t, k);
        assert false;
      }
    }
  }

  lemma KnownLater(evs: seq<Event>, t: Task, k: nat)
    requires k < |evs| && t in Run(evs[..k]).tasks
    ensures t in Run(evs).enqueued
  {
    hide Run, QueueInv, StrokeInv;
    Reachable(evs[..k]);
    WaitingKnown(Run(evs[..k]), t);
    SettledOnce(evs[..k], evs[k..]);
    assert evs[..k] + evs[k..] == evs;
  }
}
