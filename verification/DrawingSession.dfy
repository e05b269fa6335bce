/** `DrawingSession` as the object the program runs
    (apps/client/src/drawing/drawingSession.ts:164-486): every method is proved
    to be its transition of `DrawingModel`, so the invariants of `DrawingOrder`
    and `DrawingStrokes` hold of the object at all times. */
module DrawingSession {
  import opened Wrappers
  import M = DrawingModel
  import opened DrawingOrder
  import opened DrawingStrokes
  import C = DrawingCalls

  type Task = M.Task

  class DrawingSession {
    var activeStrokeId: Option<string>
    var activeSeq: nat
    var pendingPoint: Option<M.Position>
    var active: Option<M.Stroke>
    var lastFlushMs: Option<real>
    var frameHandle: bool
    var tasks: seq<Task>
    var queuedPoints: int
    var pumping: bool
    var flight: Option<M.Flight>
    var failed: set<nat>
    var strokes: nat
    var promises: nat
    ghost var enqueued: seq<Task>
    ghost var started: seq<Task>
    ghost var outcome: map<nat, M.Outcome>
    ghost var flushes: seq<M.Flush>

    ghost function Abs(): M.Session
      reads this
    {
      M.Session(active, activeSeq, pendingPoint, lastFlushMs, frameHandle, tasks, queuedPoints, pumping, flight, failed,
                strokes, enqueued, started, outcome, flushes)
    }

    ghost predicate Named()
      reads this
    {
      activeStrokeId == match active case None => None case Some(a) => Some(a.id)
    }

    ghost predicate Valid()
      reads this
    {
      Named() && promises == |enqueued| && QueueInv(Abs()) && StrokeInv(Abs())
    }

    constructor ()
      ensures Valid() && Abs() == M.Fresh
    {
      activeStrokeId, activeSeq, pendingPoint, active := None, 0, None, None;
      lastFlushMs, frameHandle, tasks, queuedPoints := None, false, [], 0;
      pumping, flight, failed, strokes, promises := false, None, {}, 0, 0;
      enqueued, started, outcome, flushes := [], [], map[], [];
      new;
      FreshKeeps();
      FreshStrokes();
    }

    // ----- the queue -----

    method FindFirstPoint() returns (idx: int)
      ensures M.FirstPoint(tasks) == if idx < 0 then None else Some(idx)
    {
      var i := 0;
      while i < |tasks|
        invariant i <= |tasks|
        invariant forall j :: 0 <= j < i ==> !tasks[j].input.Point?
      {
        if tasks[i].input.Point? {
          return i;
        }
        i := i + 1;
      }
      return -1;
    }

    /** One turn of the pump's loop. */
    method PumpNext()
      modifies this
      ensures Abs() == M.Pump(old(Abs())) && activeStrokeId == old(activeStrokeId) && promises == old(promises)
    {
      if tasks == [] {
        pumping := false;
        flight := None;
        return;
      }
      var t := tasks[0];
      tasks := tasks[1..];
      pumping := true;
      if t.input.Point? {
        queuedPoints := queuedPoints - 1;
      }
      if t.stroke in failed && !t.input.Begin? {
        flight := Some(M.Skipping(t));
      } else {
        flight := Some(M.Sending(t));
        started := started + [t];
      }
    }

    method DropOldest()
      modifies this
      ensures Abs() == M.DropOldestPoint(old(Abs())) && activeStrokeId == old(activeStrokeId) && promises == old(promises)
    {
      var idx := FindFirstPoint();
      hide M.FirstPoint;
      if idx >= 0 {
        outcome := outcome[tasks[idx].promise := M.Dropped];
        tasks := tasks[..idx] + tasks[idx + 1..];
        queuedPoints := queuedPoints - 1;
      }
    }

    method Enqueue(stroke: nat, input: M.Input)
      requires promises == |enqueued|
      modifies this
      ensures Abs() == M.Enqueue(old(Abs()), stroke, input) && activeStrokeId == old(activeStrokeId)
      ensures promises == |enqueued|
    {
      hide M.DropOldestPoint, M.Pump;
      DropFrame(Abs());
      if input.Point? {
        if queuedPoints >= M.MAX_QUEUED_POINTS {
          DropOldest();
        }
        queuedPoints := queuedPoints + 1;
      }
      var task := M.Task(promises, stroke, input);
      tasks := tasks + [task];
      enqueued := enqueued + [task];
      promises := promises + 1;
      if !pumping {
        PumpFrame(Abs());
        PumpNext();
      }
    }

    // ----- user calls -----

    method BeginStroke(id: string, style: M.Style, at: M.Position, now: real, endTs: real)
      requires Valid()
      modifies this
      ensures Valid() && Abs() == M.BeginStroke(old(Abs()), id, style, at, now, endTs)
      ensures enqueued != [] && enqueued[|enqueued| - 1].input == M.Begin(id, style, at, 1)
    {
      hide QueueInv, StrokeInv, M.EndStroke, M.Enqueue;
      ghost var s := Abs();
      BeginStrokes(s, id, style, at, now, endTs);
      EndIdle(s, now, endTs);
      if active.Some? {
        EndStroke(now, endTs);
      }
      var no := OpenStroke(id);
      EnqueueFrame(Abs(), no, M.Begin(id, style, at, activeSeq));
      Enqueue(no, M.Begin(id, style, at, activeSeq));
    }

    /** The stroke becomes active synchronously, before its BEGIN is queued. */
    method OpenStroke(id: string) returns (no: nat)
      modifies this
      ensures no == old(strokes) && activeStrokeId == Some(id) && promises == old(promises)
      ensures Abs() == old(Abs()).(active := Some(M.Stroke(no, id)), activeSeq := 1, pendingPoint := None, strokes := no + 1)
    {
      no := strokes;
      strokes := strokes + 1;
      active := Some(M.Stroke(no, id));
      activeStrokeId := Some(id);
      activeSeq := 1;
      pendingPoint := None;
    }

    method AppendPoint(at: M.Position)
      requires Valid()
      modifies this
      ensures Valid() && Abs() == M.AppendPoint(old(Abs()), at)
    {
      hide QueueInv, StrokeInv, M.BeginStroke, M.EndStroke, M.UndoStroke, M.ClearAll, M.CancelStroke, M.FrameFires, M.Settle, M.Resume;
      ApplyStrokes(Abs(), M.AppendCall(at));
      if active.None? {
        return;
      }
      pendingPoint := Some(at);
      ScheduleFlush();
    }

    method EndStroke(now: real, endTs: real)
      requires Valid()
      modifies this
      ensures Valid() && Abs() == M.EndStroke(old(Abs()), now, endTs) && active == None
    {
      hide QueueInv, StrokeInv, M.Enqueue, M.FlushPending;
      EndStrokes(Abs(), now, endTs);
      if active.None? {
        return;
      }
      var stroke := active.value;
      FlushPending(true, now);
      CancelScheduledFrame();
      active := None;
      activeStrokeId := None;
      pendingPoint := None;
      activeSeq := activeSeq + 1;
      Enqueue(stroke.no, M.End(stroke.id, endTs, activeSeq));
    }

    method CancelStroke()
      requires Valid()
      modifies this
      ensures Valid() && Abs() == M.CancelStroke(old(Abs()))
    {
      hide QueueInv, StrokeInv, M.BeginStroke, M.EndStroke, M.UndoStroke, M.ClearAll, M.AppendPoint, M.FrameFires, M.Settle, M.Resume;
      ApplyStrokes(Abs(), M.CancelCall);
      active := None;
      activeStrokeId := None;
      pendingPoint := None;
      CancelScheduledFrame();
    }

    method UndoStroke(id: string)
      requires Valid()
      modifies this
      ensures Valid() && Abs() == M.UndoStroke(old(Abs()), id)
      ensures enqueued == old(enqueued) + [M.Task(|old(enqueued)|, old(strokes), M.Undo(id))]
    {
      hide QueueInv, StrokeInv, M.Enqueue;
      ControlStrokes(Abs(), M.Undo(id));
      EnqueueFrame(Abs().(strokes := strokes + 1), strokes, M.Undo(id));
      var own := strokes;
      strokes := strokes + 1;
      Enqueue(own, M.Undo(id));
    }

    method ClearAll()
      requires Valid()
      modifies this
      ensures Valid() && Abs() == M.ClearAll(old(Abs()))
      ensures enqueued == old(enqueued) + [M.Task(|old(enqueued)|, old(strokes), M.Clear)]
    {
      hide QueueInv, StrokeInv, M.Enqueue;
      ControlStrokes(Abs(), M.Clear);
      EnqueueFrame(Abs().(strokes := strokes + 1), strokes, M.Clear);
      var own := strokes;
      strokes := strokes + 1;
      Enqueue(own, M.Clear);
    }

    // ----- frames and the rate gate -----

    method ScheduleFlush()
      modifies this`frameHandle
      ensures frameHandle
    {
      if frameHandle {
        return;
      }
      frameHandle := true;
    }

    method CancelScheduledFrame()
      modifies this`frameHandle
      ensures !frameHandle
    {
      if frameHandle {
        frameHandle := false;
      }
    }

    method FlushPending(force: bool, now: real)
      requires promises == |enqueued|
      modifies this
      ensures Abs() == M.FlushPending(old(Abs()), force, now)
      ensures activeStrokeId == old(activeStrokeId) && active == old(active) && promises == |enqueued|
    {
      hide M.Enqueue;
      if active.None? || pendingPoint.None? {
        return;
      }
      var stroke, point := active.value, pendingPoint.value;
      if !force && lastFlushMs.Some? && now - lastFlushMs.value < M.MIN_FLUSH_INTERVAL_MS {
        return;
      }
      pendingPoint := None;
      lastFlushMs := Some(now);
      flushes := flushes + [M.Flush(now, force)];
      activeSeq := activeSeq + 1;
      EnqueueFrame(Abs(), stroke.no, M.Point(stroke.id, point, activeSeq));
      Enqueue(stroke.no, M.Point(stroke.id, point, activeSeq));
    }

    /** The frame callback. */
    method OnFrame(now: real)
      requires Valid()
      modifies this
      ensures Valid() && Abs() == M.FrameFires(old(Abs()), now)
    {
      hide QueueInv, StrokeInv, M.FlushPending;
      FrameKeepsInv(Abs(), now);
      if !frameHandle {
        return;
      }
      frameHandle := false;
      FlushPending(false, now);
      if pendingPoint.Some? && active.Some? {
        ScheduleFlush();
      }
    }

    // ----- the send in flight -----

    /** The transport call for `promise` is answered, throws, or times out. */
    method OnSettled(promise: nat, ok: bool)
      requires Valid()
      modifies this
      ensures Valid() && Abs() == M.Settle(old(Abs()), promise, ok)
    {
      hide QueueInv, StrokeInv, M.Pump;
      SettleKeeps(Abs(), promise, ok);
      SettleStrokes(Abs(), promise, ok);
      C.EnqueuedStays(Abs(), M.Answer(promise, ok));
      if flight.None? || !flight.value.Sending? || flight.value.task.promise != promise {
        return;
      }
      var t := flight.value.task;
      if !ok && t.input.Begin? {
        failed := failed + {t.stroke};
      }
      outcome := outcome[promise := if ok then M.Sent else M.SendFailed];
      PumpNext();
    }

    /** The pump resumes after a withheld send. */
    method OnSkipped()
      requires Valid()
      modifies this
      ensures Valid() && Abs() == M.Resume(old(Abs()))
    {
      hide QueueInv, StrokeInv, M.Pump;
      ResumeKeeps(Abs());
      ResumeStrokes(Abs());
      C.EnqueuedStays(Abs(), M.Resumed);
      if flight.None? || !flight.value.Skipping? {
        return;
      }
      outcome := outcome[flight.value.task.promise := M.Skipped];
      PumpNext();
    }
  }

  lemma FrameKeepsInv(s: M.Session, now: real)
    requires QueueInv(s) && StrokeInv(s)
    ensures QueueInv(M.FrameFires(s, now)) && StrokeInv(M.FrameFires(s, now))
  {
    hide QueueInv, StrokeInv, M.FrameFires;
    ApplyStrokes(s, M.Frame(now));
  }
}
