/** The pointer pipeline composed with the drawing session
    (apps/client/src/drawing/pointerPipeline.ts): what one pointer interaction
    puts on the local canvas and on the wire. */
module PipelineModel {
  import opened Wrappers
  import M = DrawingModel
  import opened DrawingOrder
  import opened DrawingStrokes

  /** A JavaScript number: NaN and the infinities are one case. */
  datatype Number = Finite(value: real) | NotFinite

  datatype Sample = Sample(x: Number, y: Number, pressure: Number, ts: Number, pointerId: Option<int>)

  /** Calls of the local sink. */
  datatype LocalCall = LocalBegin(id: string, style: M.Style) | LocalPoint(at: M.Position) | LocalEnd

  /** `points` records, for each stroke that went to the network, the points of its
      local stroke; `Traced` ties it to the calls of the local sink. */
  datatype Pipe = Pipe(
    activeId: Option<string>, activePointer: Option<int>, networked: bool,
    local: seq<LocalCall>, points: map<nat, seq<M.Position>>, session: M.Session)

  const Fresh: Pipe := Pipe(None, None, false, [], map[], M.Fresh)

  function Clamp01(v: real): real {
    if v < 0.0 then 0.0 else if v > 1.0 then 1.0 else v
  }

  predicate IsFinite(s: Sample) {
    s.x.Finite? && s.y.Finite? && s.pressure.Finite? && s.ts.Finite?
  }

  function At(s: Sample): M.Position
    requires IsFinite(s)
  {
    M.Position(Clamp01(s.x.value), Clamp01(s.y.value), Clamp01(s.pressure.value), s.ts.value)
  }

  predicate IsActivePointer(p: Pipe, s: Sample) {
    p.activePointer.None? || s.pointerId.None? || s.pointerId == p.activePointer
  }

  function Finish(p: Pipe, sendEnd: bool, now: real, endTs: real): Pipe {
    if p.activeId.None? then p
    else
      Pipe(None, None, false, p.local + [LocalEnd], p.points,
        if !p.networked then p.session
        else if sendEnd then M.EndStroke(p.session, now, endTs)
        else M.CancelStroke(p.session))
  }

  /** `id` is the id the local sink hands out, `allowed` what `canSend` answers. */
  function Down(p: Pipe, style: M.Style, s: Sample, id: string, allowed: bool, now: real, endTs: real): Pipe {
    if !IsFinite(s) then p
    else
      var p1 := Finish(p, true, now, endTs);
      var local := p1.local + [LocalBegin(id, style), LocalPoint(At(s))];
      if !allowed then Pipe(Some(id), s.pointerId, false, local, p1.points, p1.session)
      else
        var session := M.BeginStroke(p1.session, id, style, At(s), now, endTs);
        Pipe(Some(id), s.pointerId, true, local,
          if session.active.Some? then p1.points[session.active.value.no := [At(s)]] else p1.points, session)
  }

  function Move(p: Pipe, s: Sample): Pipe {
    if p.activeId.None? || !IsActivePointer(p, s) || !IsFinite(s) then p
    else
      var p1 := p.(local := p.local + [LocalPoint(At(s))]);
      if !p.networked then p1
      else
        p1.(session := M.AppendPoint(p.session, At(s)),
            points := if p.session.active.Some? && p.session.active.value.no in p.points
                      then var no := p.session.active.value.no; p.points[no := p.points[no] + [At(s)]]
                      else p.points)
  }

  function Up(p: Pipe, s: Sample, now: real, endTs: real): Pipe {
    if p.activeId.None? || !IsActivePointer(p, s) then p
    else Finish(Move(p, s), true, now, endTs)
  }

  function Cancel(p: Pipe, s: Option<Sample>, now: real, endTs: real): Pipe {
    if p.activeId.None? || (s.Some? && !IsActivePointer(p, s.value)) then p
    else Finish(p, true, now, endTs)
  }

  datatype Event =
    | DownEvent(style: M.Style, sample: Sample, id: string, allowed: bool, now: real, endTs: real)
    | MoveEvent(sample: Sample)
    | UpEvent(sample: Sample, now: real, endTs: real)
    | CancelEvent(at: Option<Sample>, now: real, endTs: real)
    | FinishEvent(sendEnd: bool, now: real, endTs: real)
    | SessionEvent(ev: M.Event)

  /** Besides the pipeline only the environment, undo and clear reach the session. */
  predicate Allowed(ev: Event) {
    ev.SessionEvent? ==> ev.ev.Frame? || ev.ev.Answer? || ev.ev.Resumed? || ev.ev.UndoCall? || ev.ev.ClearCall?
  }

  function Apply(p: Pipe, ev: Event): Pipe {
    match ev
    case DownEvent(style, s, id, allowed, now, endTs) => Down(p, style, s, id, allowed, now, endTs)
    case MoveEvent(s) => Move(p, s)
    case UpEvent(s, now, endTs) => Up(p, s, now, endTs)
    case CancelEvent(s, now, endTs) => Cancel(p, s, now, endTs)
    case FinishEvent(sendEnd, now, endTs) => Finish(p, sendEnd, now, endTs)
    case SessionEvent(e) => p.(session := M.Apply(p.session, e))
  }

  function Run(evs: seq<Event>): Pipe {
    if evs == [] then Fresh else Apply(Run(evs[..|evs| - 1]), evs[|evs| - 1])
  }

  // ----- the local canvas -----

  /** One call of the local sink: begin, points, end, and begin again. */
  function LocalStep(open: Option<bool>, c: LocalCall): Option<bool> {
    match (open, c)
    case (Some(false), LocalBegin(_, _)) => Some(true)
    case (Some(true), LocalPoint(_)) => Some(true)
    case (Some(true), LocalEnd) => Some(false)
    case _ => None
  }

  /** Whether a local stroke is open after these calls; `None` if the calls do
      not alternate. */
  function LocalOpen(calls: seq<LocalCall>): Option<bool> {
    if calls == [] then Some(false) else LocalStep(LocalOpen(calls[..|calls| - 1]), calls[|calls| - 1])
  }

  function PointsStep(points: seq<M.Position>, c: LocalCall): seq<M.Position> {
    match c
    case LocalBegin(_, _) => []
    case LocalPoint(q) => points + [q]
    case LocalEnd => points
  }

  /** The points given since the last begin. */
  function LocalPoints(calls: seq<LocalCall>): seq<M.Position> {
    if calls == [] then [] else PointsStep(LocalPoints(calls[..|calls| - 1]), calls[|calls| - 1])
  }

  /** The id handed out at the last begin. */
  function LocalId(calls: seq<LocalCall>): Option<string> {
    if calls == [] then None
    else if calls[|calls| - 1].LocalBegin? then Some(calls[|calls| - 1].id)
    else LocalId(calls[..|calls| - 1])
  }

  lemma LocalSnoc(calls: seq<LocalCall>, c: LocalCall)
    ensures LocalOpen(calls + [c]) == LocalStep(LocalOpen(calls), c)
    ensures LocalPoints(calls + [c]) == PointsStep(LocalPoints(calls), c)
    ensures LocalId(calls + [c]) == if c.LocalBegin? then Some(c.id) else LocalId(calls)
  {
    assert (calls + [c])[..|calls|] == calls;
  }

  // ----- the wire -----

  /** The positions a stroke enqueued: its BEGIN's and its POINTs', in order. */
  function Wire(log: seq<M.Task>, no: nat): seq<M.Position> {
    if log == [] then []
    else
      var t := log[|log| - 1];
      Wire(log[..|log| - 1], no)
      + if t.stroke == no && (t.input.Begin? || t.input.Point?) then [t.input.at] else []
  }

  ghost predicate IsSubsequence(a: seq<M.Position>, b: seq<M.Position>) {
    || a == []
    || (b != []
        && (|| (a[|a| - 1] == b[|b| - 1] && IsSubsequence(a[..|a| - 1], b[..|b| - 1]))
            || IsSubsequence(a, b[..|b| - 1])))
  }

  predicate InUnit(at: M.Position) {
    0.0 <= at.x <= 1.0 && 0.0 <= at.y <= 1.0 && 0.0 <= at.pressure <= 1.0
  }

  /** The wire shows some of the stroke's points, in order, from the first on. */
  ghost predicate Shows(wire: seq<M.Position>, points: seq<M.Position>) {
    && wire != [] && points != [] && wire[0] == points[0]
    && IsSubsequence(wire, points)
    && (forall q :: q in points ==> InUnit(q))
    && (forall q :: q in wire ==> InUnit(q))
  }

  ghost predicate SameLast(wire: seq<M.Position>, points: seq<M.Position>) {
    wire != [] && points != [] && wire[|wire| - 1] == points[|points| - 1]
  }

  /** While a stroke is open the newest point is on the wire or pending. */
  ghost predicate Current(s: M.Session, points: seq<M.Position>)
    requires s.active.Some?
  {
    var wire := Wire(s.enqueued, s.active.value.no);
    match s.pendingPoint
    case None => SameLast(wire, points)
    case Some(q) => points != [] && q == points[|points| - 1] && IsSubsequence(wire, points[..|points| - 1])
  }

  /** All strokes the session knows, against their local points. */
  ghost predicate WireInv(s: M.Session, points: map<nat, seq<M.Position>>) {
    && (forall no :: no in points ==> no < s.strokes && Shows(Wire(s.enqueued, no), points[no]))
    && (forall t :: t in s.enqueued && t.input.Drawn() ==> t.stroke in points)
    && (forall t :: t in s.enqueued && t.input.End? ==> t.stroke in points && SameLast(Wire(s.enqueued, t.stroke), points[t.stroke]))
    && (s.active.Some? ==> s.active.value.no in points && Current(s, points[s.active.value.no]))
  }

  /** The calls of the local sink up to its `LocalEnd` at `n` drew stroke `no`: they
      gave it exactly these points, and its sends carry the id it was given there. */
  ghost predicate Twin(local: seq<LocalCall>, log: seq<M.Task>, no: nat, points: seq<M.Position>, n: nat) {
    && n < |local| && local[n] == LocalEnd && LocalPoints(local[..n]) == points
    && forall t :: t in log && t.stroke == no ==> t.input.Drawn() && LocalId(local[..n]) == Some(t.input.strokeId)
  }

  /** Every stroke but the open one has a finished local twin. */
  ghost predicate Traced(local: seq<LocalCall>, log: seq<M.Task>, points: map<nat, seq<M.Position>>, open: Option<nat>) {
    forall no :: no in points && open != Some(no) ==> exists n :: Twin(local, log, no, points[no], n)
  }

  ghost function OpenNo(s: M.Session): Option<nat> {
    if s.active.Some? then Some(s.active.value.no) else None
  }

  ghost predicate PipeInv(p: Pipe) {
    && QueueInv(p.session) && StrokeInv(p.session)
    && WireInv(p.session, p.points)
    && Traced(p.local, p.session.enqueued, p.points, OpenNo(p.session))
    && LocalOpen(p.local) == Some(p.activeId.Some?)
    && (p.networked ==> p.activeId.Some?)
    && p.networked == p.session.active.Some?
    && (p.networked ==>
          && p.session.active.value.id == p.activeId.value && LocalId(p.local) == p.activeId
          && p.session.active.value.no in p.points
          && p.points[p.session.active.value.no] == LocalPoints(p.local))
  }

  lemma WireSnoc(log: seq<M.Task>, t: M.Task, no: nat)
    ensures Wire(log + [t], no) == Wire(log, no) + if t.stroke == no && (t.input.Begin? || t.input.Point?) then [t.input.at] else []
  {
    assert (log + [t])[..|log|] == log;
  }

  lemma SubsequenceSnoc(a: seq<M.Position>, b: seq<M.Position>, x: M.Position)
    requires IsSubsequence(a, b)
    ensures IsSubsequence(a, b + [x]) && IsSubsequence(a + [x], b + [x])
  {
    assert (b + [x])[..|b|] == b && (a + [x])[..|a|] == a;
  }

  /** Enqueueing what is neither a position nor an END changes no picture. */
  lemma {:induction false} WireNone(log: seq<M.Task>, no: nat)
    requires forall t :: t in log ==> t.stroke != no
    ensures Wire(log, no) == []
  {
    if log != [] {
      WireNone(log[..|log| - 1], no);
    }
  }

  // ----- the session's operations -----

  /** The pending point, which is the newest one, goes on the wire. */
  lemma PointWire(s: M.Session, t: M.Task, s': M.Session, points: map<nat, seq<M.Position>>)
    requires OpenOk(s) && WireInv(s, points) && s.active.Some? && s.pendingPoint.Some?
    requires t.stroke == s.active.value.no && t.input.Point? && t.input.at == s.pendingPoint.value
    requires s'.enqueued == s.enqueued + [t] && s'.strokes == s.strokes && s'.active == s.active && s'.pendingPoint == None
    ensures WireInv(s', points)
  {
    hide Shows, SameLast, IsSubsequence;
    var no, q := t.stroke, s.pendingPoint.value;
    forall n
      ensures Wire(s'.enqueued, n) == if n == no then Wire(s.enqueued, n) + [q] else Wire(s.enqueued, n)
    {
      WireSnoc(s.enqueued, t, n);
      assert Wire(s.enqueued, n) + [] == Wire(s.enqueued, n);
    }
    hide Wire;
    ShowsFlush(Wire(s.enqueued, no), points[no], q);
    forall u | u in s'.enqueued && u.input.End?
      ensures u.stroke in points && SameLast(Wire(s'.enqueued, u.stroke), points[u.stroke])
    {
      assert u in s.enqueued && u.stroke != no;
    }
  }

  lemma FlushWire(s: M.Session, points: map<nat, seq<M.Position>>, force: bool, now: real)
    requires StrokeInv(s) && WireInv(s, points)
    ensures var s' := M.FlushPending(s, force, now);
            && WireInv(s', points) && s'.active == s.active
            && (force ==> s'.pendingPoint.None? || s'.active.None?)
  {
    hide M.Enqueue, LogOk, FailOk, OpenOk, WireInv;
    var s' := M.FlushPending(s, force, now);
    if s.active.Some? && s.pendingPoint.Some?
       && (force || s.lastFlush.None? || now - s.lastFlush.value >= M.MIN_FLUSH_INTERVAL_MS) {
      var a, q := s.active.value, s.pendingPoint.value;
      var input := M.Point(a.id, q, s.activeSeq + 1);
      EnqueueFrame(s.(pendingPoint := None, lastFlush := Some(now), activeSeq := s.activeSeq + 1,
                      flushes := s.flushes + [M.Flush(now, force)]), a.no, input);
      PointWire(s, M.Task(|s.enqueued|, a.no, input), s', points);
    }
  }

  lemma ShowsFlush(wire: seq<M.Position>, points: seq<M.Position>, q: M.Position)
    requires Shows(wire, points) && q == points[|points| - 1] && IsSubsequence(wire, points[..|points| - 1])
    ensures Shows(wire + [q], points) && SameLast(wire + [q], points)
  {
    SubsequenceSnoc(wire, points[..|points| - 1], q);
    assert points == points[..|points| - 1] + [q];
  }

  lemma EndWire(s: M.Session, points: map<nat, seq<M.Position>>, now: real, endTs: real)
    requires QueueInv(s) && StrokeInv(s) && WireInv(s, points)
    ensures WireInv(M.EndStroke(s, now, endTs), points)
  {
    hide M.Enqueue, M.FlushPending, LogOk, FailOk, Shows, QueueInv, OpenOk;
    if s.active.Some? {
      FlushWire(s, points, true, now);
      var a, s1 := s.active.value, M.FlushPending(s, true, now);
      var input := M.End(a.id, endTs, s1.activeSeq + 1);
      var t := M.Task(|s1.enqueued|, a.no, input);
      EnqueueFrame(s1.(frame := false, active := None, pendingPoint := None, activeSeq := s1.activeSeq + 1), a.no, input);
      var s' := M.EndStroke(s, now, endTs);
      assert s'.enqueued == s1.enqueued + [t];
      forall no
        ensures Wire(s'.enqueued, no) == Wire(s1.enqueued, no)
      {
        WireSnoc(s1.enqueued, t, no);
      }
    }
  }

  lemma BeginWire(s: M.Session, points: map<nat, seq<M.Position>>, id: string, style: M.Style, at: M.Position, now: real, endTs: real)
    requires QueueInv(s) && StrokeInv(s) && WireInv(s, points) && s.active.None? && InUnit(at)
    ensures var s' := M.BeginStroke(s, id, style, at, now, endTs);
            && s'.active == Some(M.Stroke(s.strokes, id))
            && WireInv(s', points[s.strokes := [at]])
  {
    hide M.Enqueue, M.EndStroke, M.BeginStroke, LogOk, FailOk, QueueInv, Shows, SameLast, IsSubsequence, Wire;
    var t := M.Task(|s.enqueued|, s.strokes, M.Begin(id, style, at, 1));
    var s' := M.BeginStroke(s, id, style, at, now, endTs);
    BeginLogs(s, id, style, at, now, endTs);
    WireNone(s.enqueued, s.strokes);
    OnePoint(at);
    forall no
      ensures Wire(s'.enqueued, no) == if no == s.strokes then [at] else Wire(s.enqueued, no)
    {
      WireSnoc(s.enqueued, t, no);
      assert Wire(s.enqueued, no) + [] == Wire(s.enqueued, no);
    }
    hide OpenOk;
    assert forall u :: u in s'.enqueued <==> u in s.enqueued || u == t;
  }

  lemma BeginLogs(s: M.Session, id: string, style: M.Style, at: M.Position, now: real, endTs: real)
    requires s.active.None?
    ensures var s' := M.BeginStroke(s, id, style, at, now, endTs);
            && s'.enqueued == s.enqueued + [M.Task(|s.enqueued|, s.strokes, M.Begin(id, style, at, 1))]
            && s'.active == Some(M.Stroke(s.strokes, id)) && s'.strokes == s.strokes + 1 && s'.pendingPoint == None
  {
    hide M.Enqueue, M.EndStroke;
    EndIdle(s, now, endTs);
    EnqueueFrame(s.(active := Some(M.Stroke(s.strokes, id)), activeSeq := 1, pendingPoint := None, strokes := s.strokes + 1),
                 s.strokes, M.Begin(id, style, at, 1));
  }

  lemma OnePoint(q: M.Position)
    requires InUnit(q)
    ensures Shows([q], [q]) && SameLast([q], [q]) && [] + [q] == [q]
  {
    assert [q][..0] == [];
    assert IsSubsequence([q][..0], [q][..0]);
  }

  lemma AppendWire(s: M.Session, points: map<nat, seq<M.Position>>, at: M.Position)
    requires StrokeInv(s) && WireInv(s, points) && s.active.Some? && InUnit(at)
    ensures var no := s.active.value.no;
            WireInv(M.AppendPoint(s, at), points[no := points[no] + [at]])
  {
    hide LogOk, FailOk, Shows, SameLast;
    var no := s.active.value.no;
    var wire, ps := Wire(s.enqueued, no), points[no];
    ShowsMore(wire, ps, at);
  }

  lemma ShowsMore(wire: seq<M.Position>, points: seq<M.Position>, at: M.Position)
    requires Shows(wire, points) && InUnit(at)
    ensures Shows(wire, points + [at])
    ensures (points + [at])[..|points + [at]| - 1] == points && IsSubsequence(wire, points)
  {
    SubsequenceSnoc(wire, points, at);
  }

  lemma ControlWire(s: M.Session, points: map<nat, seq<M.Position>>, input: M.Input)
    requires StrokeInv(s) && WireInv(s, points) && (input.Undo? || input.Clear?)
    ensures var s' := M.Enqueue(s.(strokes := s.strokes + 1), s.strokes, input);
            WireInv(s', points) && s'.active == s.active
  {
    hide M.Enqueue, LogOk, FailOk, OpenOk, Shows, SameLast, IsSubsequence, Wire;
    var t := M.Task(|s.enqueued|, s.strokes, input);
    EnqueueFrame(s.(strokes := s.strokes + 1), s.strokes, input);
    forall no
      ensures Wire(s.enqueued + [t], no) == Wire(s.enqueued, no)
    {
      WireSnoc(s.enqueued, t, no);
      assert Wire(s.enqueued, no) + [] == Wire(s.enqueued, no);
    }
    assert forall u :: u in s.enqueued + [t] <==> u in s.enqueued || u == t;
  }

  lemma QuietWire(s: M.Session, s': M.Session, points: map<nat, seq<M.Position>>)
    requires WireInv(s, points) && s'.enqueued == s.enqueued && s'.strokes == s.strokes
    requires (s'.active == s.active && s'.pendingPoint == s.pendingPoint) || s'.active.None?
    ensures WireInv(s', points)
  {}

  // ----- finished strokes keep their local twins -----

  /** Every send logged on the way belongs to the open stroke or to a new number. */
  ghost predicate LogsOnly(s: M.Session, s': M.Session) {
    forall t :: t in s'.enqueued && t !in s.enqueued ==>
      || t.stroke >= s.strokes
      || (s.active.Some? && t.stroke == s.active.value.no && t.input.Drawn() && t.input.strokeId == s.active.value.id)
  }

  lemma FlushLogs(s: M.Session, force: bool, now: real)
    ensures LogsOnly(s, M.FlushPending(s, force, now))
    ensures M.FlushPending(s, force, now).strokes == s.strokes && M.FlushPending(s, force, now).active == s.active
  {
    hide M.Enqueue;
    if s.active.Some? && s.pendingPoint.Some? {
      EnqueueFrame(s.(pendingPoint := None, lastFlush := Some(now), activeSeq := s.activeSeq + 1,
                      flushes := s.flushes + [M.Flush(now, force)]),
                   s.active.value.no, M.Point(s.active.value.id, s.pendingPoint.value, s.activeSeq + 1));
    }
  }

  lemma EndLogs(s: M.Session, now: real, endTs: real)
    ensures LogsOnly(s, M.EndStroke(s, now, endTs))
  {
    hide M.Enqueue, M.FlushPending;
    if s.active.Some? {
      FlushLogs(s, true, now);
      var s1 := M.FlushPending(s, true, now);
      EnqueueFrame(s1.(frame := false, active := None, pendingPoint := None, activeSeq := s1.activeSeq + 1),
                   s.active.value.no, M.End(s.active.value.id, endTs, s1.activeSeq + 1));
    }
  }

  lemma TwinStays(local: seq<LocalCall>, log: seq<M.Task>, no: nat, points: seq<M.Position>, n: nat,
                  more: seq<LocalCall>, log': seq<M.Task>)
    requires Twin(local, log, no, points, n) && forall t :: t in log' && t.stroke == no ==> t in log
    ensures Twin(local + more, log', no, points, n)
  {
    hide LocalPoints, LocalId;
    assert (local + more)[..n] == local[..n];
  }

  lemma TracedStays(local: seq<LocalCall>, s: M.Session, points: map<nat, seq<M.Position>>,
                    more: seq<LocalCall>, s': M.Session, points': map<nat, seq<M.Position>>, open': Option<nat>)
    requires Traced(local, s.enqueued, points, OpenNo(s)) && LogsOnly(s, s')
    requires OpenNo(s).None? || open' == OpenNo(s)
    requires forall no :: no in points ==> no < s.strokes
    requires forall no :: no in points' && open' != Some(no) ==> no in points && points'[no] == points[no]
    ensures Traced(local + more, s'.enqueued, points', open')
  {
    hide Twin;
    forall no | no in points' && open' != Some(no)
      ensures exists n :: Twin(local + more, s'.enqueued, no, points'[no], n)
    {
      var n :| Twin(local, s.enqueued, no, points[no], n);
      TwinStays(local, s.enqueued, no, points[no], n, more, s'.enqueued);
    }
  }

  /** Ending the local stroke gives the open stroke its twin. */
  lemma TracedFinish(p: Pipe, s': M.Session)
    requires PipeInv(p) && p.networked && LogsOnly(p.session, s')
    ensures Traced(p.local + [LocalEnd], s'.enqueued, p.points, None)
  {
    hide QueueInv, LogOk, FailOk, Twin, LocalPoints, LocalId, LocalOpen, Shows, Current, SameLast;
    var s, n, no := p.session, |p.local|, p.session.active.value.no;
    TracedStays(p.local, s, p.points, [LocalEnd], s', p.points, Some(no));
    assert (p.local + [LocalEnd])[..n] == p.local;
    assert Twin(p.local + [LocalEnd], s'.enqueued, no, p.points[no], n) by {
      forall t | t in s'.enqueued && t.stroke == no
        ensures t.input.Drawn() && t.input.strokeId == s.active.value.id
      {}
      TwinEnds(p.local, s'.enqueued, no, p.points[no], s.active.value.id);
    }
  }

  lemma TwinEnds(local: seq<LocalCall>, log: seq<M.Task>, no: nat, points: seq<M.Position>, id: string)
    requires LocalPoints(local) == points && LocalId(local) == Some(id)
    requires forall t :: t in log && t.stroke == no ==> t.input.Drawn() && t.input.strokeId == id
    ensures Twin(local + [LocalEnd], log, no, points, |local|)
  {
    hide LocalPoints, LocalId;
    assert (local + [LocalEnd])[..|local|] == local;
  }

  lemma KnownStrokes(s: M.Session, points: map<nat, seq<M.Position>>)
    requires WireInv(s, points)
    ensures forall no :: no in points ==> no < s.strokes
  {}

  // ----- the pipeline's operations -----

  lemma FinishTraced(p: Pipe, sendEnd: bool, now: real, endTs: real)
    requires PipeInv(p) && p.activeId.Some?
    ensures var p' := Finish(p, sendEnd, now, endTs);
            Traced(p'.local, p'.session.enqueued, p'.points, None)
  {
    hide QueueInv, StrokeInv, WireInv, M.EndStroke, LocalOpen, LocalPoints, LocalId, Traced;
    if p.networked {
      EndLogs(p.session, now, endTs);
      TracedFinish(p, if sendEnd then M.EndStroke(p.session, now, endTs) else M.CancelStroke(p.session));
    } else {
      KnownStrokes(p.session, p.points);
      TracedStays(p.local, p.session, p.points, [LocalEnd], p.session, p.points, None);
    }
  }

  lemma FinishKeeps(p: Pipe, sendEnd: bool, now: real, endTs: real)
    requires PipeInv(p)
    ensures PipeInv(Finish(p, sendEnd, now, endTs)) && Finish(p, sendEnd, now, endTs).activeId == None
  {
    hide QueueInv, StrokeInv, WireInv, M.EndStroke, LocalOpen, LocalPoints, LocalId, Traced, LogsOnly;
    if p.activeId.Some? {
      LocalSnoc(p.local, LocalEnd);
      FinishTraced(p, sendEnd, now, endTs);
      EndWire(p.session, p.points, now, endTs);
      EndStrokes(p.session, now, endTs);
      ApplyStrokes(p.session, M.CancelCall);
      QuietWire(p.session, M.CancelStroke(p.session), p.points);
    }
  }

  lemma DownTraced(p: Pipe, style: M.Style, at: M.Position, id: string, now: real, endTs: real)
    requires PipeInv(p) && p.activeId == None
    ensures var local := p.local + [LocalBegin(id, style), LocalPoint(at)];
            var session := M.BeginStroke(p.session, id, style, at, now, endTs);
            && Traced(local, p.session.enqueued, p.points, None)
            && Traced(local, session.enqueued, p.points[p.session.strokes := [at]], Some(p.session.strokes))
  {
    hide QueueInv, StrokeInv, WireInv, M.EndStroke, M.Enqueue, LocalOpen, LocalPoints, LocalId, Traced;
    var s, more := p.session, [LocalBegin(id, style), LocalPoint(at)];
    KnownStrokes(s, p.points);
    TracedStays(p.local, s, p.points, more, s, p.points, None);
    EndIdle(s, now, endTs);
    EnqueueFrame(s.(active := Some(M.Stroke(s.strokes, id)), activeSeq := 1, pendingPoint := None, strokes := s.strokes + 1),
                 s.strokes, M.Begin(id, style, at, 1));
    TracedStays(p.local, s, p.points, more, M.BeginStroke(s, id, style, at, now, endTs), p.points[s.strokes := [at]], Some(s.strokes));
  }

  lemma DownKeeps(p: Pipe, style: M.Style, s: Sample, id: string, allowed: bool, now: real, endTs: real)
    requires PipeInv(p)
    ensures PipeInv(Down(p, style, s, id, allowed, now, endTs))
  {
    hide QueueInv, StrokeInv, WireInv, M.EndStroke, M.BeginStroke, LocalOpen, LocalPoints, LocalId, Traced, Finish;
    if IsFinite(s) {
      FinishKeeps(p, true, now, endTs);
      var p1 := Finish(p, true, now, endTs);
      LocalSnoc(p1.local, LocalBegin(id, style));
      LocalSnoc(p1.local + [LocalBegin(id, style)], LocalPoint(At(s)));
      assert p1.local + [LocalBegin(id, style), LocalPoint(At(s))] == p1.local + [LocalBegin(id, style)] + [LocalPoint(At(s))];
      assert [] + [At(s)] == [At(s)];
      if allowed {
        BeginWire(p1.session, p1.points, id, style, At(s), now, endTs);
        BeginStrokes(p1.session, id, style, At(s), now, endTs);
      }
      DownTraced(p1, style, At(s), id, now, endTs);
    }
  }

  lemma MoveKeeps(p: Pipe, s: Sample)
    requires PipeInv(p)
    ensures PipeInv(Move(p, s))
  {
    hide QueueInv, StrokeInv, WireInv, LocalOpen, LocalPoints, LocalId, Traced;
    if p.activeId.Some? && IsFinite(s) {
      LocalSnoc(p.local, LocalPoint(At(s)));
      KnownStrokes(p.session, p.points);
      TracedStays(p.local, p.session, p.points, [LocalPoint(At(s))], Move(p, s).session, Move(p, s).points, OpenNo(p.session));
      if p.networked {
        AppendWire(p.session, p.points, At(s));
        ApplyStrokes(p.session, M.AppendCall(At(s)));
      }
    }
  }

  lemma SessionLogs(s: M.Session, ev: M.Event)
    requires ev.Frame? || ev.Answer? || ev.Resumed? || ev.UndoCall? || ev.ClearCall?
    ensures LogsOnly(s, M.Apply(s, ev))
  {
    hide M.Enqueue, M.FlushPending;
    match ev
    case Frame(now) => FlushLogs(s.(frame := false), false, now);
    case UndoCall(id) => EnqueueFrame(s.(strokes := s.strokes + 1), s.strokes, M.Undo(id));
    case ClearCall => EnqueueFrame(s.(strokes := s.strokes + 1), s.strokes, M.Clear);
    case Answer(promise, ok) =>
    case Resumed =>
  }

  /** Frames, answers, undo and clear do not touch what the pipeline owns. */
  lemma SessionKeeps(p: Pipe, ev: M.Event)
    requires PipeInv(p)
    requires ev.Frame? || ev.Answer? || ev.Resumed? || ev.UndoCall? || ev.ClearCall?
    ensures PipeInv(p.(session := M.Apply(p.session, ev)))
  {
    hide QueueInv, StrokeInv, WireInv, M.Enqueue, M.FlushPending, M.Pump, Traced, LogsOnly, LocalPoints, LocalId, LocalOpen;
    var s := p.session;
    ApplyStrokes(s, ev);
    SessionLogs(s, ev);
    KnownStrokes(s, p.points);
    TracedStays(p.local, s, p.points, [], M.Apply(s, ev), p.points, OpenNo(s));
    assert p.local + [] == p.local;
    match ev
    case Frame(now) =>
      if s.frame {
        var s0 := s.(frame := false);
        QuietWire(s, s0, p.points);
        StrokesOf(s, s0);
        FlushWire(s0, p.points, false, now);
        QuietWire(M.FlushPending(s0, false, now), M.FrameFires(s, now), p.points);
      }
    case UndoCall(id) => ControlWire(s, p.points, M.Undo(id));
    case ClearCall => ControlWire(s, p.points, M.Clear);
    case Answer(promise, ok) => SettleQuiet(s, ev, p.points);
    case Resumed => SettleQuiet(s, ev, p.points);
  }

  lemma StrokesOf(s: M.Session, s': M.Session)
    requires StrokeInv(s) && s' == s.(frame := s'.frame)
    ensures StrokeInv(s')
  {
    SameFail(s, s');
    SameOpen(s, s');
  }

  lemma SettleQuiet(s: M.Session, ev: M.Event, points: map<nat, seq<M.Position>>)
    requires WireInv(s, points) && (ev.Answer? || ev.Resumed?)
    ensures WireInv(M.Apply(s, ev), points) && M.Apply(s, ev).active == s.active
  {
    hide WireInv;
    QuietWire(s, M.Apply(s, ev), points);
  }

  /** In every composed run: the session has an open stroke exactly while the
      pipeline is networked, with the same id; local begins and ends alternate;
      and the wire shows every stroke as described by `WireInv`. */
  lemma {:induction false} Composition(evs: seq<Event>)
    requires forall i :: 0 <= i < |evs| ==> Allowed(evs[i])
    ensures PipeInv(Run(evs))
  {
    hide PipeInv, Finish, Down, Move, M.Apply;
    if evs == [] {
      FreshPipe();
    } else {
      var before, ev := evs[..|evs| - 1], evs[|evs| - 1];
      Composition(before);
      var p := Run(before);
      match ev
      case DownEvent(style, s, id, allowed, now, endTs) => DownKeeps(p, style, s, id, allowed, now, endTs);
      case MoveEvent(s) => MoveKeeps(p, s);
      case UpEvent(s, now, endTs) =>
        MoveKeeps(p, s);
        FinishKeeps(Move(p, s), true, now, endTs);
      case CancelEvent(s, now, endTs) => FinishKeeps(p, true, now, endTs);
      case FinishEvent(sendEnd, now, endTs) => FinishKeeps(p, sendEnd, now, endTs);
      case SessionEvent(e) => SessionKeeps(p, e);
    }
  }

  lemma FreshPipe()
    ensures PipeInv(Fresh)
  {
    FreshKeeps();
    FreshStrokes();
  }

  /** A finished stroke on the wire, against the calls the local sink received for the
      stroke of that id: a subsequence of its points, all in the unit square, from the
      first to the last. */
  lemma FinishedStroke(evs: seq<Event>, t: M.Task) returns (n: nat)
    requires forall i :: 0 <= i < |evs| ==> Allowed(evs[i])
    requires t in Run(evs).session.enqueued && t.input.End?
    ensures var local := Run(evs).local;
            && n < |local| && local[n] == LocalEnd && LocalId(local[..n]) == Some(t.input.strokeId)
            && var wire, points := Wire(Run(evs).session.enqueued, t.stroke), LocalPoints(local[..n]);
               && wire != [] && points != []
               && wire[0] == points[0] && wire[|wire| - 1] == points[|points| - 1]
               && IsSubsequence(wire, points)
               && forall q :: q in wire ==> InUnit(q)
  {
    Composition(evs);
    hide Run, QueueInv, IsSubsequence, LocalPoints, LocalId, LocalOpen, LogOk, FailOk, Wire, Twin;
    var p := Run(evs);
    n :| Twin(p.local, p.session.enqueued, t.stroke, p.points[t.stroke], n);
    TwinSays(p.local, p.session.enqueued, t, p.points[t.stroke], n);
  }

  lemma TwinSays(local: seq<LocalCall>, log: seq<M.Task>, t: M.Task, points: seq<M.Position>, n: nat)
    requires Twin(local, log, t.stroke, points, n) && t in log && t.input.Drawn()
    ensures n < |local| && local[n] == LocalEnd && LocalPoints(local[..n]) == points
    ensures LocalId(local[..n]) == Some(t.input.strokeId)
  {}
}
