/** The state of the network half of local drawing and every transition of it
    (apps/client/src/drawing/drawingSession.ts): user calls, frame callbacks,
    and the settling of the one send in flight. */
module DrawingModel {
  import opened Wrappers

  const MIN_FLUSH_INTERVAL_MS: real := 12.5
  const MAX_QUEUED_POINTS: nat := 32

  datatype Position = Position(x: real, y: real, pressure: real, tsMs: real)

  datatype Style = Style(tool: string, color: string, width: real)

  /** A `drawing_send` call. */
  datatype Input =
    | Begin(strokeId: string, style: Style, at: Position, clientSeq: nat)
    | Point(strokeId: string, at: Position, clientSeq: nat)
    | End(strokeId: string, tsMs: real, clientSeq: nat)
    | Undo(strokeId: string)
    | Clear
  {
    /** BEGIN, POINT and END belong to a drawn stroke. */
    predicate Drawn() { Begin? || Point? || End? }
  }

  /** One queued send. `promise` names the promise handed out for it, in enqueue
      order; `stroke` is the identity of its stroke object, which is shared by
      the sends of one stroke and fresh for every undo and clear. */
  datatype Task = Task(promise: nat, stroke: nat, input: Input)

  datatype Stroke = Stroke(no: nat, id: string)

  /** How a promise was settled; the last two resolve with `null`. */
  datatype Outcome = Sent | SendFailed | Skipped | Dropped

  /** What the pump awaits: a transport call, or the skip of a send whose
      stroke has failed. */
  datatype Flight = Sending(task: Task) | Skipping(task: Task)

  datatype Flush = Flush(at: real, forced: bool)

  datatype Session = Session(
    active: Option<Stroke>,
    activeSeq: nat,
    pendingPoint: Option<Position>,
    lastFlush: Option<real>,
    frame: bool,
    tasks: seq<Task>,
    queuedPoints: int,
    pumping: bool,
    flight: Option<Flight>,
    failed: set<nat>,
    strokes: nat,
    // history
    enqueued: seq<Task>,
    started: seq<Task>,
    outcome: map<nat, Outcome>,
    flushes: seq<Flush>)

  const Fresh: Session := Session(None, 0, None, None, false, [], 0, false, None, {}, 0, [], [], map[], [])

  /** Position of the oldest waiting POINT, as `findIndex` finds it. */
  function FirstPoint(tasks: seq<Task>): (r: Option<nat>)
    ensures r.Some? ==> r.value < |tasks| && tasks[r.value].input.Point?
    ensures r.Some? ==> forall j :: 0 <= j < r.value ==> !tasks[j].input.Point?
    ensures r.None? ==> forall j :: 0 <= j < |tasks| ==> !tasks[j].input.Point?
  {
    if tasks == [] then None
    else if tasks[0].input.Point? then Some(0)
    else
      match FirstPoint(tasks[1..])
      case None => None
      case Some(i) => Some(i + 1)
  }

  function DropOldestPoint(s: Session): Session {
    match FirstPoint(s.tasks)
    case None => s
    case Some(i) =>
      s.(tasks := s.tasks[..i] + s.tasks[i + 1..],
         queuedPoints := s.queuedPoints - 1,
         outcome := s.outcome[s.tasks[i].promise := Dropped])
  }

  /** One turn of the pump's loop: take the next task, or stop. */
  function Pump(s: Session): Session {
    if s.tasks == [] then s.(pumping := false, flight := None)
    else
      var t := s.tasks[0];
      var s' := s.(tasks := s.tasks[1..], pumping := true,
                   queuedPoints := if t.input.Point? then s.queuedPoints - 1 else s.queuedPoints);
      if t.stroke in s.failed && !t.input.Begin? then s'.(flight := Some(Skipping(t)))
      else s'.(flight := Some(Sending(t)), started := s.started + [t])
  }

  /** Append without pumping. */
  function Append(s: Session, stroke: nat, input: Input): Session {
    var task := Task(|s.enqueued|, stroke, input);
    var s1 := if input.Point? && s.queuedPoints >= MAX_QUEUED_POINTS then DropOldestPoint(s) else s;
    s1.(queuedPoints := if input.Point? then s1.queuedPoints + 1 else s1.queuedPoints,
        tasks := s1.tasks + [task],
        enqueued := s1.enqueued + [task])
  }

  function Enqueue(s: Session, stroke: nat, input: Input): Session {
    var s' := Append(s, stroke, input);
    if s'.pumping then s' else Pump(s')
  }

  function FlushPending(s: Session, force: bool, now: real): Session {
    if s.active.None? || s.pendingPoint.None? then s
    else if !force && s.lastFlush.Some? && now - s.lastFlush.value < MIN_FLUSH_INTERVAL_MS then s
    else
      var stroke := s.active.value;
      Enqueue(s.(pendingPoint := None, lastFlush := Some(now), activeSeq := s.activeSeq + 1,
                 flushes := s.flushes + [Flush(now, force)]),
              stroke.no, Point(stroke.id, s.pendingPoint.value, s.activeSeq + 1))
  }

  // ----- user calls; every clock reading is a parameter -----

  function EndStroke(s: Session, now: real, endTs: real): Session {
    if s.active.None? then s
    else
      var stroke := s.active.value;
      var s1 := FlushPending(s, true, now);
      Enqueue(s1.(frame := false, active := None, pendingPoint := None, activeSeq := s1.activeSeq + 1),
              stroke.no, End(stroke.id, endTs, s1.activeSeq + 1))
  }

  function BeginStroke(s: Session, id: string, style: Style, at: Position, now: real, endTs: real): Session {
    var s1 := EndStroke(s, now, endTs);
    var stroke := Stroke(s1.strokes, id);
    Enqueue(s1.(active := Some(stroke), activeSeq := 1, pendingPoint := None, strokes := s1.strokes + 1),
            stroke.no, Begin(id, style, at, 1))
  }

  function AppendPoint(s: Session, at: Position): Session {
    if s.active.None? then s else s.(pendingPoint := Some(at), frame := true)
  }

  function CancelStroke(s: Session): Session {
    s.(active := None, pendingPoint := None, frame := false)
  }

  function UndoStroke(s: Session, id: string): Session {
    Enqueue(s.(strokes := s.strokes + 1), s.strokes, Undo(id))
  }

  function ClearAll(s: Session): Session {
    Enqueue(s.(strokes := s.strokes + 1), s.strokes, Clear)
  }

  // ----- the environment -----

  /** The scheduled frame callback; re-armed while a point stays pending. */
  function FrameFires(s: Session, now: real): Session {
    if !s.frame then s
    else
      var s1 := FlushPending(s.(frame := false), false, now);
      if s1.pendingPoint.Some? && s1.active.Some? then s1.(frame := true) else s1
  }

  /** The transport of send `promise` answers, throws, or its timer fires. Only
      the first of these for the send in flight has an effect. */
  function Settle(s: Session, promise: nat, ok: bool): Session {
    if s.flight.Some? && s.flight.value.Sending? && s.flight.value.task.promise == promise then
      var t := s.flight.value.task;
      Pump(s.(failed := if !ok && t.input.Begin? then s.failed + {t.stroke} else s.failed,
              outcome := s.outcome[promise := if ok then Sent else SendFailed]))
    else s
  }

  /** The pump resumes after a skipped task. */
  function Resume(s: Session): Session {
    if s.flight.Some? && s.flight.value.Skipping? then
      Pump(s.(outcome := s.outcome[s.flight.value.task.promise := Skipped]))
    else s
  }

  datatype Event =
    | BeginCall(id: string, style: Style, at: Position, now: real, endTs: real)
    | AppendCall(at: Position)
    | EndCall(now: real, endTs: real)
    | CancelCall
    | UndoCall(id: string)
    | ClearCall
    | Frame(now: real)
    | Answer(promise: nat, ok: bool)
    | Resumed

  function Apply(s: Session, ev: Event): Session {
    match ev
    case BeginCall(id, style, at, now, endTs) => BeginStroke(s, id, style, at, now, endTs)
    case AppendCall(at) => AppendPoint(s, at)
    case EndCall(now, endTs) => EndStroke(s, now, endTs)
    case CancelCall => CancelStroke(s)
    case UndoCall(id) => UndoStroke(s, id)
    case ClearCall => ClearAll(s)
    case Frame(now) => FrameFires(s, now)
    case Answer(promise, ok) => Settle(s, promise, ok)
    case Resumed => Resume(s)
  }

  function Run(evs: seq<Event>): Session {
    if evs == [] then Fresh else Apply(Run(evs[..|evs| - 1]), evs[|evs| - 1])
  }
}
