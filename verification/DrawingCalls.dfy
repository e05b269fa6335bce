/** What the user's calls put in the queue, over whole runs: every call its own send,
    in order, with the arguments it was given, exactly numbered; and of the positions
    always the newest (apps/client/src/drawing/drawingSession.ts:208-390). */
module DrawingCalls {
  import opened Wrappers
  import opened DrawingModel
  import opened DrawingOrder
  import opened DrawingStrokes
  import opened DrawingRate

  // ----- what the calls ask for -----

  function OpenAfter(open: Option<string>, ev: Event): Option<string> {
    match ev
    case BeginCall(id, _, _, _, _) => Some(id)
    case EndCall(_, _) => None
    case CancelCall => None
    case _ => open
  }

  /** The id of the stroke that is open after these calls. */
  function Open(evs: seq<Event>): Option<string> {
    if evs == [] then None else OpenAfter(Open(evs[..|evs| - 1]), evs[|evs| - 1])
  }

  function Closing(open: Option<string>, endTs: real): seq<Input> {
    if open.Some? then [End(open.value, endTs, 0)] else []
  }

  function AskedBy(open: Option<string>, ev: Event): seq<Input> {
    match ev
    case BeginCall(id, style, at, _, endTs) => Closing(open, endTs) + [Begin(id, style, at, 0)]
    case EndCall(_, endTs) => Closing(open, endTs)
    case UndoCall(id) => [Undo(id)]
    case ClearCall => [Clear]
    case _ => []
  }

  /** Every BEGIN, END, undo and clear that the calls ask for; numbers left open. */
  function Asked(evs: seq<Event>): seq<Input> {
    if evs == [] then []
    else Asked(evs[..|evs| - 1]) + AskedBy(Open(evs[..|evs| - 1]), evs[|evs| - 1])
  }

  // ----- what is in the log -----

  function Unnumbered(input: Input): Input {
    match input
    case Begin(id, style, at, _) => Begin(id, style, at, 0)
    case Point(id, at, _) => Point(id, at, 0)
    case End(id, ts, _) => End(id, ts, 0)
    case _ => input
  }

  /** The sends other than POINTs, in order. */
  function Asks(log: seq<Task>): seq<Input> {
    if log == [] then []
    else Asks(log[..|log| - 1]) + if log[|log| - 1].input.Point? then [] else [Unnumbered(log[|log| - 1].input)]
  }

  /** How many sends of a stroke are in the log. */
  function Count(log: seq<Task>, no: nat): nat {
    if log == [] then 0 else Count(log[..|log| - 1], no) + if log[|log| - 1].stroke == no then 1 else 0
  }

  /** The newest send of a stroke. */
  function LastOf(log: seq<Task>, no: nat): Option<Input> {
    if log == [] then None
    else if log[|log| - 1].stroke == no then Some(log[|log| - 1].input)
    else LastOf(log[..|log| - 1], no)
  }

  lemma LogSnoc(log: seq<Task>, t: Task, no: nat)
    ensures Asks(log + [t]) == Asks(log) + if t.input.Point? then [] else [Unnumbered(t.input)]
    ensures Count(log + [t], no) == Count(log, no) + if t.stroke == no then 1 else 0
    ensures LastOf(log + [t], no) == if t.stroke == no then Some(t.input) else LastOf(log, no)
  {
    assert (log + [t])[..|log|] == log;
  }

  // ----- how one event extends the log -----

  predicate GateOpen(s: Session, now: real) {
    s.lastFlush.None? || now - s.lastFlush.value >= 12.5
  }

  /** The POINT that sends the pending position, if there is one. */
  function Pending(s: Session): seq<Task> {
    if s.active.None? || s.pendingPoint.None? then []
    else [Task(|s.enqueued|, s.active.value.no, Point(s.active.value.id, s.pendingPoint.value, s.activeSeq + 1))]
  }

  lemma FlushLogs(s: Session, force: bool, now: real)
    ensures var s', point := FlushPending(s, force, now), if force || GateOpen(s, now) then Pending(s) else [];
            && s'.enqueued == s.enqueued + point && s'.activeSeq == s.activeSeq + |point|
            && s'.active == s.active && s'.strokes == s.strokes && s'.frame == s.frame
            && s'.pendingPoint == if point == [] then s.pendingPoint else None
  {
    hide Enqueue;
    if s.active.Some? && s.pendingPoint.Some? {
      var a := s.active.value;
      EnqueueFrame(s.(pendingPoint := None, lastFlush := Some(now), activeSeq := s.activeSeq + 1,
                      flushes := s.flushes + [Flush(now, force)]), a.no, Point(a.id, s.pendingPoint.value, s.activeSeq + 1));
    }
    assert s.enqueued + [] == s.enqueued;
  }

  /** The sends that close the open stroke: its pending position and its END. */
  function ClosingTasks(s: Session, endTs: real): seq<Task> {
    if s.active.None? then []
    else
      var n := |Pending(s)|;
      Pending(s) + [Task(|s.enqueued| + n, s.active.value.no, End(s.active.value.id, endTs, s.activeSeq + n + 1))]
  }

  lemma EndLogs(s: Session, now: real, endTs: real)
    ensures var s' := EndStroke(s, now, endTs);
            && s'.enqueued == s.enqueued + ClosingTasks(s, endTs) && s'.active == None && s'.strokes == s.strokes
            && (s.active.Some? ==> s'.pendingPoint == None) && (s.active.None? ==> s' == s)
  {
    hide Enqueue, FlushPending;
    if s.active.Some? {
      FlushLogs(s, true, now);
      var a, s1 := s.active.value, FlushPending(s, true, now);
      EnqueueFrame(s1.(frame := false, active := None, pendingPoint := None, activeSeq := s1.activeSeq + 1),
                   a.no, End(a.id, endTs, s1.activeSeq + 1));
      assert s.enqueued + Pending(s) + [Task(|s1.enqueued|, a.no, End(a.id, endTs, s1.activeSeq + 1))]
             == s.enqueued + ClosingTasks(s, endTs);
    }
    assert s.enqueued + [] == s.enqueued;
  }

  /** What an event enqueues. */
  function Added(s: Session, ev: Event): seq<Task> {
    match ev
    case BeginCall(id, style, at, _, endTs) =>
      var closing := ClosingTasks(s, endTs);
      closing + [Task(|s.enqueued| + |closing|, s.strokes, Begin(id, style, at, 1))]
    case EndCall(_, endTs) => ClosingTasks(s, endTs)
    case UndoCall(id) => [Task(|s.enqueued|, s.strokes, Undo(id))]
    case ClearCall => [Task(|s.enqueued|, s.strokes, Clear)]
    case Frame(now) => if s.frame && GateOpen(s, now) then Pending(s) else []
    case _ => []
  }

  lemma BeginLogs(s: Session, id: string, style: Style, at: Position, now: real, endTs: real)
    ensures var s' := BeginStroke(s, id, style, at, now, endTs);
            && s'.enqueued == s.enqueued + Added(s, BeginCall(id, style, at, now, endTs))
            && s'.active == Some(Stroke(s.strokes, id)) && s'.activeSeq == 1 && s'.pendingPoint == None && s'.strokes == s.strokes + 1
  {
    hide Enqueue, EndStroke, ClosingTasks;
    EndLogs(s, now, endTs);
    var s1 := EndStroke(s, now, endTs);
    EnqueueFrame(s1.(active := Some(Stroke(s1.strokes, id)), activeSeq := 1, pendingPoint := None, strokes := s1.strokes + 1),
                 s1.strokes, Begin(id, style, at, 1));
    var t := Task(|s1.enqueued|, s1.strokes, Begin(id, style, at, 1));
    assert s.enqueued + ClosingTasks(s, endTs) + [t] == s.enqueued + (ClosingTasks(s, endTs) + [t]);
  }

  /** Exactly what each event enqueues: one send with its own arguments per undo, clear and
      begin, and a POINT only for a position that is pending. */
  lemma EventLogs(s: Session, ev: Event)
    ensures Apply(s, ev).enqueued == s.enqueued + Added(s, ev)
  {
    hide Enqueue, EndStroke, BeginStroke, FlushPending, Pump;
    assert s.enqueued + [] == s.enqueued;
    match ev
    case BeginCall(id, style, at, now, endTs) => BeginLogs(s, id, style, at, now, endTs);
    case EndCall(now, endTs) => EndLogs(s, now, endTs);
    case UndoCall(id) => EnqueueFrame(s.(strokes := s.strokes + 1), s.strokes, Undo(id));
    case ClearCall => EnqueueFrame(s.(strokes := s.strokes + 1), s.strokes, Clear);
    case Frame(now) => FlushLogs(s.(frame := false), false, now);
    case Answer(promise, ok) => EnqueuedStays(s, ev);
    case Resumed => EnqueuedStays(s, ev);
    case _ =>
  }

  lemma EnqueuedStays(s: Session, ev: Event)
    requires ev.Answer? || ev.Resumed?
    ensures var s' := Apply(s, ev);
            && s'.enqueued == s.enqueued && s'.active == s.active && s'.activeSeq == s.activeSeq
            && s'.pendingPoint == s.pendingPoint && s'.frame == s.frame && s'.strokes == s.strokes
  {}

  // ----- every call is in the log, in order, with its arguments -----

  function OpenId(s: Session): Option<string> {
    match s.active case None => None case Some(a) => Some(a.id)
  }

  lemma EventOpens(s: Session, ev: Event)
    ensures OpenId(Apply(s, ev)) == OpenAfter(OpenId(s), ev)
  {
    hide Enqueue, EndStroke, BeginStroke, FlushPending, Pump, ClosingTasks;
    match ev
    case BeginCall(id, style, at, now, endTs) => BeginLogs(s, id, style, at, now, endTs);
    case EndCall(now, endTs) => EndLogs(s, now, endTs);
    case UndoCall(id) => EnqueueFrame(s.(strokes := s.strokes + 1), s.strokes, Undo(id));
    case ClearCall => EnqueueFrame(s.(strokes := s.strokes + 1), s.strokes, Clear);
    case Frame(now) => FlushLogs(s.(frame := false), false, now);
    case Answer(promise, ok) => EnqueuedStays(s, ev);
    case Resumed => EnqueuedStays(s, ev);
    case _ =>
  }

  lemma {:induction false} AsksAppend(a: seq<Task>, b: seq<Task>)
    ensures Asks(a + b) == Asks(a) + Asks(b)
  {
    if b == [] {
      assert a + b == a;
    } else {
      AsksAppend(a, b[..|b| - 1]);
      assert (a + b)[..|a + b| - 1] == a + b[..|b| - 1];
    }
  }

  lemma AsksOne(t: Task)
    ensures Asks([t]) == if t.input.Point? then [] else [Unnumbered(t.input)]
  {
    assert [t][..0] == [];
  }

  lemma PendingAsks(s: Session)
    ensures Asks(Pending(s)) == []
  {
    if Pending(s) != [] {
      AsksOne(Pending(s)[0]);
    }
  }

  lemma ClosingAsks(s: Session, endTs: real)
    ensures Asks(ClosingTasks(s, endTs)) == Closing(OpenId(s), endTs)
  {
    if s.active.Some? {
      var n := |Pending(s)|;
      var t := Task(|s.enqueued| + n, s.active.value.no, End(s.active.value.id, endTs, s.activeSeq + n + 1));
      PendingAsks(s);
      AsksOne(t);
      AsksAppend(Pending(s), [t]);
    }
  }

  lemma AddedAsks(s: Session, ev: Event)
    ensures Asks(Added(s, ev)) == AskedBy(OpenId(s), ev)
  {
    hide ClosingTasks, Pending, Asks;
    match ev
    case BeginCall(id, style, at, _, endTs) =>
      var closing := ClosingTasks(s, endTs);
      var t := Task(|s.enqueued| + |closing|, s.strokes, Begin(id, style, at, 1));
      ClosingAsks(s, endTs);
      AsksOne(t);
      AsksAppend(closing, [t]);
    case EndCall(_, endTs) => ClosingAsks(s, endTs);
    case UndoCall(id) => AsksOne(Task(|s.enqueued|, s.strokes, Undo(id)));
    case ClearCall => AsksOne(Task(|s.enqueued|, s.strokes, Clear));
    case Frame(now) => PendingAsks(s); NothingAsked();
    case _ => NothingAsked();
  }

  lemma NothingAsked()
    ensures Asks([]) == []
  {}

  /** In every run the sends other than POINTs are exactly what the calls ask for: begins,
      undos and clears one for one, in order and with their arguments, and an END for every
      stroke that a call closes. */
  lemma {:induction false} LogIsAsked(evs: seq<Event>)
    ensures Asks(Run(evs).enqueued) == Asked(evs) && OpenId(Run(evs)) == Open(evs)
  {
    hide Apply, Added, AskedBy, Asks;
    if evs == [] {
      NothingAsked();
    } else {
      var before, ev := evs[..|evs| - 1], evs[|evs| - 1];
      LogIsAsked(before);
      EventLogs(Run(before), ev);
      EventOpens(Run(before), ev);
      AddedAsks(Run(before), ev);
      AsksAppend(Run(before).enqueued, Added(Run(before), ev));
    }
  }

  /** An undo or clear has a stroke number to itself, so nothing that fails withholds it. */
  lemma ControlAlone(evs: seq<Event>, p: nat, q: nat)
    requires p < |Run(evs).enqueued| && q < |Run(evs).enqueued| && p != q
    requires !Run(evs).enqueued[p].input.Drawn()
    ensures Run(evs).enqueued[q].stroke != Run(evs).enqueued[p].stroke
  {
    Reachable(evs);
    hide Run, QueueInv, OpenOk, FailOk;
    var log := Run(evs).enqueued;
    assert Legal(log[..p], log[p]) && Legal(log[..q], log[q]);
    if q < p {
      assert log[q] in log[..p];
    } else {
      assert log[p] in log[..q];
    }
  }

  // ----- the numbers -----

  /** BEGIN is 1 and each further send of its stroke one more. */
  ghost predicate Numbered(log: seq<Task>) {
    forall p :: 0 <= p < |log| && log[p].input.Drawn() ==> log[p].input.clientSeq == 1 + Count(log[..p], log[p].stroke)
  }

  ghost predicate NumberInv(s: Session) {
    Numbered(s.enqueued) && (s.active.Some? ==> s.activeSeq == Count(s.enqueued, s.active.value.no))
  }

  lemma NumberedSnoc(log: seq<Task>, t: Task)
    requires Numbered(log) && (t.input.Drawn() ==> t.input.clientSeq == 1 + Count(log, t.stroke))
    ensures Numbered(log + [t])
  {
    hide Count;
    var log' := log + [t];
    assert log'[..|log|] == log;
    forall p | 0 <= p < |log|
      ensures log'[..p] == log[..p]
    {
    }
  }

  lemma {:induction false} CountNone(log: seq<Task>, no: nat)
    requires forall t :: t in log ==> t.stroke != no
    ensures Count(log, no) == 0
  {
    if log != [] {
      CountNone(log[..|log| - 1], no);
    }
  }

  lemma FlushNumbers(s: Session, force: bool, now: real)
    requires NumberInv(s)
    ensures NumberInv(FlushPending(s, force, now))
  {
    hide FlushPending, Count;
    FlushLogs(s, force, now);
    var s' := FlushPending(s, force, now);
    if s'.enqueued != s.enqueued {
      var t := Pending(s)[0];
      NumberedSnoc(s.enqueued, t);
      LogSnoc(s.enqueued, t, t.stroke);
    }
    assert s.enqueued + [] == s.enqueued;
  }

  lemma EndNumbers(s: Session, now: real, endTs: real)
    requires NumberInv(s)
    ensures NumberInv(EndStroke(s, now, endTs)) && EndStroke(s, now, endTs).active == None
  {
    hide FlushPending, Enqueue, Count, Numbered;
    EndLogs(s, now, endTs);
    if s.active.Some? {
      FlushNumbers(s, true, now);
      FlushLogs(s, true, now);
      var a, s1 := s.active.value, FlushPending(s, true, now);
      var t := Task(|s1.enqueued|, a.no, End(a.id, endTs, s1.activeSeq + 1));
      EnqueueFrame(s1.(frame := false, active := None, pendingPoint := None, activeSeq := s1.activeSeq + 1), a.no, t.input);
      NumberedSnoc(s1.enqueued, t);
    }
  }

  lemma ControlNumbers(s: Session, input: Input)
    requires NumberInv(s) && OpenOk(s) && (input.Undo? || input.Clear?)
    ensures NumberInv(Enqueue(s.(strokes := s.strokes + 1), s.strokes, input))
  {
    hide Enqueue, Count, Numbered;
    var t := Task(|s.enqueued|, s.strokes, input);
    EnqueueFrame(s.(strokes := s.strokes + 1), s.strokes, input);
    NumberedSnoc(s.enqueued, t);
    if s.active.Some? {
      LogSnoc(s.enqueued, t, s.active.value.no);
    }
  }

  lemma BeginNumbers(s: Session, id: string, style: Style, at: Position, now: real, endTs: real)
    requires QueueInv(s) && StrokeInv(s) && NumberInv(s)
    ensures NumberInv(BeginStroke(s, id, style, at, now, endTs))
  {
    hide Enqueue, Count, Numbered, EndStroke, QueueInv, LogOk, FailOk;
    EndNumbers(s, now, endTs);
    EndStrokes(s, now, endTs);
    var s1 := EndStroke(s, now, endTs);
    var t := Task(|s1.enqueued|, s1.strokes, Begin(id, style, at, 1));
    EnqueueFrame(s1.(active := Some(Stroke(s1.strokes, id)), activeSeq := 1, pendingPoint := None, strokes := s1.strokes + 1),
                 s1.strokes, t.input);
    CountNone(s1.enqueued, s1.strokes);
    NumberedSnoc(s1.enqueued, t);
    LogSnoc(s1.enqueued, t, t.stroke);
  }

  /** In every run the sends of each stroke are numbered 1, 2, 3 and so on in the order in
      which they are enqueued, without a gap. */
  lemma {:induction false} NumberedRuns(evs: seq<Event>)
    ensures NumberInv(Run(evs))
  {
    hide NumberInv, Enqueue, EndStroke, BeginStroke, FlushPending, Settle, Resume, QueueInv;
    if evs == [] {
      NothingNumbered();
    } else {
      var before, ev := evs[..|evs| - 1], evs[|evs| - 1];
      NumberedRuns(before);
      Reachable(before);
      var s := Run(before);
      match ev
      case BeginCall(id, style, at, now, endTs) => BeginNumbers(s, id, style, at, now, endTs);
      case AppendCall(at) => SameNumbers(s, AppendPoint(s, at));
      case EndCall(now, endTs) => EndNumbers(s, now, endTs);
      case CancelCall => SameNumbers(s, CancelStroke(s));
      case UndoCall(id) => ControlNumbers(s, Undo(id));
      case ClearCall => ControlNumbers(s, Clear);
      case Frame(now) =>
        if s.frame {
          SameNumbers(s, s.(frame := false));
          FlushNumbers(s.(frame := false), false, now);
          SameNumbers(FlushPending(s.(frame := false), false, now), FrameFires(s, now));
        }
      case Answer(promise, ok) =>
        EnqueuedStays(s, ev);
        SameNumbers(s, Settle(s, promise, ok));
      case Resumed =>
        EnqueuedStays(s, ev);
        SameNumbers(s, Resume(s));
    }
  }

  lemma NothingNumbered()
    ensures NumberInv(Fresh)
  {}

  lemma SameNumbers(s: Session, s': Session)
    requires NumberInv(s) && s'.enqueued == s.enqueued && s'.activeSeq == s.activeSeq && (s'.active == s.active || s'.active == None)
    ensures NumberInv(s')
  {}

  // ----- the positions -----

  function LastAfter(open: bool, last: Option<Position>, ev: Event): Option<Position> {
    match ev
    case AppendCall(at) => if open then Some(at) else None
    case BeginCall(_, _, _, _, _) => None
    case EndCall(_, _) => None
    case CancelCall => None
    case _ => last
  }

  /** The position given last to the open stroke after its begin. */
  function LastAppend(evs: seq<Event>): Option<Position> {
    if evs == [] then None
    else LastAfter(Open(evs[..|evs| - 1]).Some?, LastAppend(evs[..|evs| - 1]), evs[|evs| - 1])
  }

  /** The position given last is pending, with a frame to come for it, or it is the newest
      send of its stroke. */
  ghost predicate Newest(s: Session, last: Option<Position>) {
    && (s.pendingPoint.Some? ==> s.active.Some? && s.frame)
    && (last.Some? ==> s.active.Some?)
    && (s.active.Some? ==>
          match last
          case None => s.pendingPoint.None? && LastOf(s.enqueued, s.active.value.no).Some? && LastOf(s.enqueued, s.active.value.no).value.Begin?
          case Some(at) =>
            || s.pendingPoint == Some(at)
            || (s.pendingPoint == None && LastOf(s.enqueued, s.active.value.no) == Some(Point(s.active.value.id, at, s.activeSeq))))
  }

  lemma QuietNewest(s: Session, s': Session, last: Option<Position>)
    requires Newest(s, last)
    requires s'.enqueued == s.enqueued && s'.active == s.active && s'.activeSeq == s.activeSeq
    requires s'.pendingPoint == s.pendingPoint && s'.frame == s.frame
    ensures Newest(s', last)
  {}

  lemma ControlNewest(s: Session, input: Input, last: Option<Position>)
    requires Newest(s, last) && OpenOk(s)
    ensures Newest(Enqueue(s.(strokes := s.strokes + 1), s.strokes, input), last)
  {
    hide Enqueue, LastOf;
    EnqueueFrame(s.(strokes := s.strokes + 1), s.strokes, input);
    if s.active.Some? {
      LogSnoc(s.enqueued, Task(|s.enqueued|, s.strokes, input), s.active.value.no);
    }
  }

  lemma BeginNewest(s: Session, id: string, style: Style, at: Position, now: real, endTs: real)
    ensures Newest(BeginStroke(s, id, style, at, now, endTs), None)
  {
    hide BeginStroke, LastOf, ClosingTasks;
    BeginLogs(s, id, style, at, now, endTs);
    var closing := ClosingTasks(s, endTs);
    var t := Task(|s.enqueued| + |closing|, s.strokes, Begin(id, style, at, 1));
    assert s.enqueued + (closing + [t]) == s.enqueued + closing + [t];
    LogSnoc(s.enqueued + closing, t, s.strokes);
  }

  lemma NothingNewest()
    ensures Newest(Fresh, None)
  {}

  lemma AppendNewest(s: Session, at: Position, last: Option<Position>)
    requires Newest(s, last)
    ensures Newest(AppendPoint(s, at), if s.active.Some? then Some(at) else None)
  {}

  lemma ClosedNewest(s: Session, s': Session, last: Option<Position>)
    requires Newest(s, last) && s'.active == None && (s'.pendingPoint == None || s' == s)
    ensures Newest(s', None)
  {}

  lemma FrameNewest(s: Session, now: real, last: Option<Position>)
    requires Newest(s, last)
    ensures Newest(FrameFires(s, now), last)
  {
    hide FlushPending, LastOf;
    if s.frame {
      var s0 := s.(frame := false);
      FlushLogs(s0, false, now);
      FlushLogs(s, false, now);
      assert s0.enqueued + [] == s0.enqueued;
      if Pending(s0) != [] {
        LogSnoc(s0.enqueued, Pending(s0)[0], Pending(s0)[0].stroke);
        assert Pending(s0) == [Pending(s0)[0]];
      }
    }
  }

  lemma EventNewest(s: Session, ev: Event, last: Option<Position>)
    requires Newest(s, last) && OpenOk(s)
    ensures Newest(Apply(s, ev), LastAfter(s.active.Some?, last, ev))
  {
    hide Newest, Enqueue, EndStroke, BeginStroke, FlushPending, Settle, Resume, AppendPoint, CancelStroke, FrameFires, OpenOk, LastOf;
    match ev
    case BeginCall(id, style, at, now, endTs) => BeginNewest(s, id, style, at, now, endTs);
    case AppendCall(at) => AppendNewest(s, at, last);
    case EndCall(now, endTs) =>
      EndLogs(s, now, endTs);
      ClosedNewest(s, EndStroke(s, now, endTs), last);
    case CancelCall =>
      CancelCloses(s);
      ClosedNewest(s, CancelStroke(s), last);
    case UndoCall(id) => ControlNewest(s, Undo(id), last);
    case ClearCall => ControlNewest(s, Clear, last);
    case Frame(now) => FrameNewest(s, now, last);
    case Answer(promise, ok) =>
      EnqueuedStays(s, ev);
      QuietNewest(s, Settle(s, promise, ok), last);
    case Resumed =>
      EnqueuedStays(s, ev);
      QuietNewest(s, Resume(s), last);
  }

  lemma CancelCloses(s: Session)
    ensures CancelStroke(s).active == None && CancelStroke(s).pendingPoint == None
  {}

  /** In every run the newest position of the open stroke is never forgotten. */
  lemma {:induction false} NewestRuns(evs: seq<Event>)
    ensures Newest(Run(evs), LastAppend(evs))
  {
    hide Newest, Apply, QueueInv, LogOk, FailOk, OpenOk, LastAfter, OpenAfter;
    if evs == [] {
      NothingNewest();
    } else {
      var before, ev := evs[..|evs| - 1], evs[|evs| - 1];
      NewestRuns(before);
      Reachable(before);
      LogIsAsked(before);
      EventNewest(Run(before), ev, LastAppend(before));
    }
  }

  /** Closing a stroke enqueues its trailing position first: just before the END the newest
      send of the stroke is a POINT there. */
  lemma TrailingEnqueued(evs: seq<Event>, ev: Event, at: Position) returns (k: nat)
    requires Open(evs).Some? && LastAppend(evs) == Some(at) && (ev.EndCall? || ev.BeginCall?)
    ensures var log := Run(evs + [ev]).enqueued;
            && k < |log| && log[k].input.End? && log[k].input.strokeId == Open(evs).value && log[k].input.clientSeq > 0
            && LastOf(log[..k], log[k].stroke) == Some(Point(Open(evs).value, at, log[k].input.clientSeq - 1))
  {
    hide Apply, LastOf;
    LogIsAsked(evs);
    NewestRuns(evs);
    var s := Run(evs);
    assert (evs + [ev])[..|evs|] == evs;
    EventLogs(s, ev);
    var n := |Pending(s)|;
    k := |s.enqueued| + n;
    var log := Run(evs + [ev]).enqueued;
    assert log[..k] == s.enqueued + Pending(s);
    assert log[k] == Task(k, s.active.value.no, End(s.active.value.id, ev.endTs, s.activeSeq + n + 1));
    if n > 0 {
      assert Pending(s) == [Pending(s)[0]];
      LogSnoc(s.enqueued, Pending(s)[0], s.active.value.no);
    } else {
      assert s.enqueued + [] == s.enqueued;
    }
  }

  lemma FrameSends(s: Session, now: real)
    requires s.pendingPoint.Some? ==> s.active.Some? && s.frame
    ensures var s' := FrameFires(s, now);
            && s'.enqueued == s.enqueued + (if GateOpen(s, now) then Pending(s) else [])
            && s'.pendingPoint == if GateOpen(s, now) then None else s.pendingPoint
  {
    hide FlushPending;
    FlushLogs(s.(frame := false), false, now);
    assert s.enqueued + [] == s.enqueued;
  }

  lemma NewestSays(s: Session, last: Option<Position>)
    requires Newest(s, last) && s.pendingPoint.Some?
    ensures s.active.Some? && s.frame && last == s.pendingPoint
  {
    hide LastOf;
  }

  lemma GateIs(s: Session, now: real)
    requires LogMatches(s)
    ensures GateOpen(s, now) <==> s.flushes == [] || now - s.flushes[|s.flushes| - 1].at >= 12.5
  {
    hide PointsIn;
  }

  /** A frame sends the newest position exactly if one is pending and no POINT went out in
      the last 12.5 ms; it is never sent twice. */
  lemma FrameSendsExactlyWhen(evs: seq<Event>, now: real)
    ensures var s, sent := Run(evs), Run(evs + [Frame(now)]);
            var due := s.pendingPoint.Some? && (s.flushes == [] || now - s.flushes[|s.flushes| - 1].at >= 12.5);
            && (due ==>
                  && LastAppend(evs).Some? && s.active.Some? && Open(evs).Some? && sent.pendingPoint == None
                  && sent.enqueued == s.enqueued
                       + [Task(|s.enqueued|, s.active.value.no, Point(Open(evs).value, LastAppend(evs).value, s.activeSeq + 1))])
            && (!due ==> sent.enqueued == s.enqueued && sent.pendingPoint == s.pendingPoint)
  {
    hide FrameFires, LastOf, LastAppend, Open, Asks, Asked, LogMatches, Newest, GateOpen;
    var s := Run(evs);
    assert (evs + [Frame(now)])[..|evs|] == evs;
    assert Run(evs + [Frame(now)]) == FrameFires(s, now);
    hide Run;
    LogIsAsked(evs);
    NewestRuns(evs);
    RunMatches(evs);
    GateIs(s, now);
    if s.pendingPoint.Some? {
      NewestSays(s, LastAppend(evs));
    }
    FrameSends(s, now);
    assert s.enqueued + [] == s.enqueued;
  }

  /** Settling the send in flight records the answer of that send alone and starts the next
      waiting task, withheld only if the BEGIN of its stroke has failed. */
  lemma AnswerSettles(s: Session, promise: nat, ok: bool)
    requires s.flight.Some? && s.flight.value.Sending? && s.flight.value.task.promise == promise
    ensures var s', t := Apply(s, Answer(promise, ok)), s.flight.value.task;
            var failed := s.failed + if t.input.Begin? && !ok then {t.stroke} else {};
            && s'.outcome == s.outcome[promise := if ok then Sent else SendFailed]
            && s'.failed == failed && s'.tasks == (if s.tasks == [] then [] else s.tasks[1..])
            && s'.flight == (if s.tasks == [] then None
                             else if s.tasks[0].stroke in failed && !s.tasks[0].input.Begin? then Some(Skipping(s.tasks[0]))
                             else Some(Sending(s.tasks[0])))
  {
    assert s.failed + {} == s.failed;
  }
}
