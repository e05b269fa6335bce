/** The shape of every stroke on the wire, in every interleaving: BEGIN first,
    then POINTs, then at most one END, strictly increasing `client_seq`, strokes
    never interleaved, and silence after a failed BEGIN
    (apps/client/src/drawing/drawingSession.ts:9-57, 208-275, 396-447). */
module DrawingStrokes {
  import opened Wrappers
  import opened DrawingModel
  import opened DrawingOrder

  function Seq(input: Input): nat {
    if input.Drawn() then input.clientSeq else 0
  }

  ghost predicate SameStroke(a: Task, b: Task) {
    a.stroke == b.stroke
  }

  /** `t` may follow the sends of `log`. */
  ghost predicate Legal(log: seq<Task>, t: Task) {
    && (t.input.Point? || t.input.End? ==>
          && (exists b :: b in log && SameStroke(b, t) && b.input.Begin?)
          && forall u :: u in log && SameStroke(u, t) ==>
               u.input.Drawn() && !u.input.End? && Seq(u.input) < Seq(t.input) && u.input.strokeId == t.input.strokeId)
    && (t.input.Begin? || t.input.Undo? || t.input.Clear? ==> forall u :: u in log ==> !SameStroke(u, t))
    && (t.input.Drawn() ==> forall u :: u in log && u.input.Drawn() ==> u.stroke <= t.stroke)
  }

  ghost predicate LogOk(log: seq<Task>) {
    forall i :: 0 <= i < |log| ==> Legal(log[..i], log[i])
  }

  lemma LogSnoc(log: seq<Task>, t: Task)
    requires LogOk(log) && Legal(log, t)
    ensures LogOk(log + [t])
  {
    hide Legal;
    var log' := log + [t];
    forall i | 0 <= i < |log'|
      ensures Legal(log'[..i], log'[i])
    {
      assert log'[..i] == log[..i];
    }
  }

  /** The open stroke is the newest drawn one and its last number is `activeSeq`. */
  ghost predicate OpenOk(s: Session) {
    && (forall u :: u in s.enqueued ==> u.stroke < s.strokes)
    && (s.active.Some? ==>
          && var a := s.active.value;
          && a.no < s.strokes
          && (exists b :: b in s.enqueued && b.stroke == a.no && b.input.Begin?)
          && (forall u :: u in s.enqueued && u.stroke == a.no ==>
                u.input.Drawn() && !u.input.End? && Seq(u.input) <= s.activeSeq && u.input.strokeId == a.id)
          && (forall u :: u in s.enqueued && u.input.Drawn() ==> u.stroke <= a.no))
  }

  /** Silence after failure: of a failed stroke only the BEGIN was ever started,
      and a stroke is failed only because its BEGIN was sent and failed. */
  ghost predicate FailOk(s: Session) {
    && (forall t :: t in s.started && t.stroke in s.failed ==> t.input.Begin?)
    && (forall f :: f in s.failed ==>
          exists b :: b in s.started && b.stroke == f && b.input.Begin? && SettledAs(s, b, SendFailed))
  }

  ghost predicate StrokeInv(s: Session) {
    LogOk(s.enqueued) && OpenOk(s) && FailOk(s)
  }

  // ----- enqueueing -----

  lemma EnqueueFrame(s: Session, stroke: nat, input: Input)
    ensures var s' := Enqueue(s, stroke, input);
            && s'.enqueued == s.enqueued + [Task(|s.enqueued|, stroke, input)]
            && s'.active == s.active && s'.activeSeq == s.activeSeq && s'.strokes == s.strokes && s'.failed == s.failed
            && s'.pendingPoint == s.pendingPoint && s'.frame == s.frame && s'.lastFlush == s.lastFlush && s'.flushes == s.flushes
  {}

  lemma PumpFail(s: Session)
    requires FailOk(s)
    ensures FailOk(Pump(s))
  {}

  /** Failure records survive any new outcome of a task that was not settled. */
  lemma RecordFail(s: Session, p: nat, o: Outcome, s': Session)
    requires FailOk(s) && p !in s.outcome
    requires s'.started == s.started && s'.failed == s.failed && s'.outcome == s.outcome[p := o]
    ensures FailOk(s')
  {
    forall f | f in s'.failed
      ensures exists b :: b in s'.started && b.stroke == f && b.input.Begin? && SettledAs(s', b, SendFailed)
    {
      var b :| b in s.started && b.stroke == f && b.input.Begin? && SettledAs(s, b, SendFailed);
      assert SettledAs(s', b, SendFailed);
    }
  }

  lemma WaitingUnsettled(s: Session, t: Task)
    requires QueueInv(s) && t in s.tasks
    ensures t.promise !in s.outcome
  {
    assert !Settled(s, t);
  }

  lemma DropFail(s: Session)
    requires QueueInv(s) && FailOk(s) && s.queuedPoints >= MAX_QUEUED_POINTS
    ensures FailOk(DropOldestPoint(s))
  {
    assert Increasing(s.tasks);
    hide QueueInv, FailOk, Increasing, PointsIn, DropOldestPoint;
    var gone := DropShape(s);
    WaitingUnsettled(s, gone);
    RecordFail(s, gone.promise, Dropped, DropOldestPoint(s));
  }

  lemma EnqueueFail(s: Session, stroke: nat, input: Input)
    requires QueueInv(s) && FailOk(s)
    ensures FailOk(Enqueue(s, stroke, input))
  {
    hide QueueInv, Pump, DropOldestPoint, FailOk;
    var s1 := s;
    if input.Point? && s.queuedPoints >= MAX_QUEUED_POINTS {
      DropFail(s);
      s1 := DropOldestPoint(s);
    }
    var s' := Append(s, stroke, input);
    SameFail(s1, s');
    PumpFail(s');
  }

  lemma SameFail(s: Session, s': Session)
    requires FailOk(s) && s'.started == s.started && s'.failed == s.failed && s'.outcome == s.outcome
    ensures FailOk(s')
  {
    forall f | f in s'.failed
      ensures exists b :: b in s'.started && b.stroke == f && b.input.Begin? && SettledAs(s', b, SendFailed)
    {
      var b :| b in s.started && b.stroke == f && b.input.Begin? && SettledAs(s, b, SendFailed);
      assert SettledAs(s', b, SendFailed);
    }
  }

  lemma SameOpen(s: Session, s': Session)
    requires OpenOk(s) && s'.enqueued == s.enqueued && s'.strokes == s.strokes && s'.activeSeq == s.activeSeq
    requires s'.active == s.active || s'.active == None
    ensures OpenOk(s')
  {}

  lemma EnqueueStroke(s: Session, stroke: nat, input: Input)
    requires QueueInv(s) && LogOk(s.enqueued) && FailOk(s)
    requires Legal(s.enqueued, Task(|s.enqueued|, stroke, input))
    requires OpenOk(s.(enqueued := s.enqueued + [Task(|s.enqueued|, stroke, input)]))
    ensures QueueInv(Enqueue(s, stroke, input)) && StrokeInv(Enqueue(s, stroke, input))
  {
    hide QueueInv, Enqueue, FailOk, LogOk, Legal, OpenOk;
    EnqueueKeeps(s, stroke, input);
    EnqueueFrame(s, stroke, input);
    EnqueueFail(s, stroke, input);
    LogSnoc(s.enqueued, Task(|s.enqueued|, stroke, input));
    SameOpen(s.(enqueued := s.enqueued + [Task(|s.enqueued|, stroke, input)]), Enqueue(s, stroke, input));
  }

  // ----- the operations -----

  lemma FlushStrokes(s: Session, force: bool, now: real)
    requires QueueInv(s) && StrokeInv(s)
    ensures QueueInv(FlushPending(s, force, now)) && StrokeInv(FlushPending(s, force, now))
    ensures FlushPending(s, force, now).active == s.active
  {
    hide QueueInv, Enqueue, LogOk, FailOk;
    var s' := FlushPending(s, force, now);
    if s' != s {
      var a := s.active.value;
      var input := Point(a.id, s.pendingPoint.value, s.activeSeq + 1);
      var t := Task(|s.enqueued|, a.no, input);
      var s1 := s.(pendingPoint := None, lastFlush := Some(now), activeSeq := s.activeSeq + 1,
                   flushes := s.flushes + [Flush(now, force)]);
      SameQueue(s, s1);
      SameFail(s, s1);
      assert Legal(s.enqueued, t);
      OpenSnoc(s1, t);
      EnqueueStroke(s1, a.no, input);
      EnqueueFrame(s1, a.no, input);
    }
  }

  /** Logging a BEGIN or POINT of the open stroke keeps it open. */
  lemma OpenSnoc(s: Session, t: Task)
    requires s.active.Some? && t.stroke == s.active.value.no < s.strokes
    requires (t.input.Point? && OpenOk(s)) || (t.input.Begin? && forall u :: u in s.enqueued ==> u.stroke < t.stroke)
    requires t.input.strokeId == s.active.value.id && t.input.clientSeq <= s.activeSeq
    ensures OpenOk(s.(enqueued := s.enqueued + [t]))
  {
    var log := s.enqueued + [t];
    assert t in log;
    assert forall u :: u in log <==> u in s.enqueued || u == t;
  }

  /** Without an open stroke any logged stroke number is old. */
  lemma ClosedSnoc(s: Session, t: Task)
    requires s.active.None? && t.stroke < s.strokes && forall u :: u in s.enqueued ==> u.stroke < s.strokes
    ensures OpenOk(s.(enqueued := s.enqueued + [t]))
  {}

  lemma EndStrokes(s: Session, now: real, endTs: real)
    requires QueueInv(s) && StrokeInv(s)
    ensures QueueInv(EndStroke(s, now, endTs)) && StrokeInv(EndStroke(s, now, endTs))
    ensures EndStroke(s, now, endTs).active == None
  {
    hide QueueInv, Enqueue, LogOk, FailOk, FlushPending;
    if s.active.Some? {
      FlushStrokes(s, true, now);
      var a, s1 := s.active.value, FlushPending(s, true, now);
      var input := End(a.id, endTs, s1.activeSeq + 1);
      var t := Task(|s1.enqueued|, a.no, input);
      var s2 := s1.(frame := false, active := None, pendingPoint := None, activeSeq := s1.activeSeq + 1);
      SameQueue(s1, s2);
      SameFail(s1, s2);
      assert Legal(s1.enqueued, t);
      ClosedSnoc(s2, t);
      EnqueueStroke(s2, a.no, input);
      EnqueueFrame(s2, a.no, input);
    }
  }

  lemma EndIdle(s: Session, now: real, endTs: real)
    ensures s.active.None? ==> EndStroke(s, now, endTs) == s
  {}

  lemma BeginStrokes(s: Session, id: string, style: Style, at: Position, now: real, endTs: real)
    requires QueueInv(s) && StrokeInv(s)
    ensures var s' := BeginStroke(s, id, style, at, now, endTs);
            QueueInv(s') && StrokeInv(s')
  {
    hide QueueInv, Enqueue, LogOk, FailOk, EndStroke;
    EndStrokes(s, now, endTs);
    var s1 := EndStroke(s, now, endTs);
    var input := Begin(id, style, at, 1);
    var t := Task(|s1.enqueued|, s1.strokes, input);
    var s2 := s1.(active := Some(Stroke(s1.strokes, id)), activeSeq := 1, pendingPoint := None, strokes := s1.strokes + 1);
    SameQueue(s1, s2);
    SameFail(s1, s2);
    assert Legal(s1.enqueued, t);
    OpenSnoc(s2, t);
    EnqueueStroke(s2, s1.strokes, input);
  }

  /** An undo or clear is logged under a stroke number of its own. */
  lemma ControlStrokes(s: Session, input: Input)
    requires QueueInv(s) && StrokeInv(s) && (input.Undo? || input.Clear?)
    ensures var s' := Enqueue(s.(strokes := s.strokes + 1), s.strokes, input);
            QueueInv(s') && StrokeInv(s')
  {
    hide QueueInv, Enqueue, LogOk, FailOk;
    var s1 := s.(strokes := s.strokes + 1);
    var t := Task(|s.enqueued|, s.strokes, input);
    SameQueue(s, s1);
    SameFail(s, s1);
    assert Legal(s.enqueued, t);
    assert forall u :: u in s.enqueued + [t] <==> u in s.enqueued || u == t;
    EnqueueStroke(s1, s.strokes, input);
  }

  lemma PumpFrame(s: Session)
    ensures var s' := Pump(s);
            s'.enqueued == s.enqueued && s'.active == s.active && s'.activeSeq == s.activeSeq && s'.strokes == s.strokes
  {}

  lemma PrefixMember(log: seq<Task>, u: Task, n: nat)
    requires Logged(log, u) && n <= |log|
    ensures u.promise < n ==> u in log[..n]
  {
    if u.promise < n {
      assert log[..n][u.promise] == u;
    }
  }

  lemma BeginIsFirst(log: seq<Task>, t: Task, u: Task)
    requires LogOk(log) && Logged(log, t) && Logged(log, u)
    requires t.input.Begin? && SameStroke(u, t)
    ensures t.promise <= u.promise
  {
    PrefixMember(log, u, t.promise);
    assert Legal(log[..t.promise], log[t.promise]);
  }

  /** The failing BEGIN is the only started task of its stroke. */
  lemma FailingBegin(s: Session, t: Task, u: Task)
    requires QueueInv(s) && LogOk(s.enqueued)
    requires s.flight == Some(Sending(t)) && t.input.Begin? && u in s.started && SameStroke(u, t)
    ensures u == t
  {
    hide LogOk, Legal, Bounded, Awake, Accounted, Truthful, Increasing;
    BeginIsFirst(s.enqueued, t, u);
  }

  lemma SettleStrokes(s: Session, promise: nat, ok: bool)
    requires QueueInv(s) && StrokeInv(s)
    ensures StrokeInv(Settle(s, promise, ok))
  {
    if s.flight.Some? && s.flight.value.Sending? && s.flight.value.task.promise == promise {
      var t := s.flight.value.task;
      assert t in s.started && !Settled(s, t);
      hide QueueInv, Pump, LogOk, OpenOk, Legal, SameStroke;
      var s0 := s.(outcome := s.outcome[promise := if ok then Sent else SendFailed]);
      RecordFail(s, promise, if ok then Sent else SendFailed, s0);
      var s1 := s0.(failed := if !ok && t.input.Begin? then s.failed + {t.stroke} else s.failed);
      if !ok && t.input.Begin? {
        assert SettledAs(s1, t, SendFailed);
        forall u | u in s1.started && u.stroke in s1.failed
          ensures u.input.Begin?
        {
          if u.stroke == t.stroke {
            SameStrokeIs(u, t);
            FailingBegin(s, t, u);
          }
        }
        MoreFailed(s0, t, s1);
      }
      PumpFail(s1);
      PumpFrame(s1);
      SameOpen(s, Pump(s1));
    }
  }

  lemma SameStrokeIs(a: Task, b: Task)
    ensures SameStroke(a, b) <==> a.stroke == b.stroke
  {}

  lemma MoreFailed(s: Session, t: Task, s': Session)
    requires FailOk(s) && t in s.started && t.input.Begin? && SettledAs(s, t, SendFailed)
    requires s' == s.(failed := s.failed + {t.stroke})
    requires forall u :: u in s'.started && u.stroke in s'.failed ==> u.input.Begin?
    ensures FailOk(s')
  {
    forall f | f in s'.failed
      ensures exists b :: b in s'.started && b.stroke == f && b.input.Begin? && SettledAs(s', b, SendFailed)
    {
      if f in s.failed {
        var b :| b in s.started && b.stroke == f && b.input.Begin? && SettledAs(s, b, SendFailed);
        assert SettledAs(s', b, SendFailed);
      } else {
        assert SettledAs(s', t, SendFailed);
      }
    }
  }

  lemma ResumeStrokes(s: Session)
    requires QueueInv(s) && StrokeInv(s)
    ensures StrokeInv(Resume(s))
  {
    if s.flight.Some? && s.flight.value.Skipping? {
      var t := s.flight.value.task;
      assert !Settled(s, t);
      hide QueueInv, Pump, LogOk, OpenOk, FailOk;
      var s1 := s.(outcome := s.outcome[t.promise := Skipped]);
      RecordFail(s, t.promise, Skipped, s1);
      PumpFail(s1);
      PumpFrame(s1);
      SameOpen(s, Pump(s1));
    }
  }

  lemma FrameStrokes(s: Session, now: real)
    requires QueueInv(s) && StrokeInv(s)
    ensures StrokeInv(FrameFires(s, now))
  {
    hide QueueInv, LogOk, OpenOk, FailOk, FlushPending;
    var s0 := s.(frame := false);
    SameQueue(s, s0);
    SameFail(s, s0);
    SameOpen(s, s0);
    FlushStrokes(s0, false, now);
    var s1 := FlushPending(s0, false, now);
    SameFail(s1, s1.(frame := true));
    SameOpen(s1, s1.(frame := true));
  }

  lemma ApplyStrokes(s: Session, ev: Event)
    requires QueueInv(s) && StrokeInv(s)
    ensures QueueInv(Apply(s, ev)) && StrokeInv(Apply(s, ev))
  {
    hide QueueInv, LogOk, FailOk, OpenOk, Enqueue, EndStroke, BeginStroke, FrameFires, Settle, Resume;
    ApplyKeeps(s, ev);
    match ev
    case BeginCall(id, style, at, now, endTs) => BeginStrokes(s, id, style, at, now, endTs);
    case AppendCall(at) =>
      SameFail(s, AppendPoint(s, at));
      SameOpen(s, AppendPoint(s, at));
    case EndCall(now, endTs) => EndStrokes(s, now, endTs);
    case CancelCall =>
      SameFail(s, CancelStroke(s));
      SameOpen(s, CancelStroke(s));
    case UndoCall(id) => ControlStrokes(s, Undo(id));
    case ClearCall => ControlStrokes(s, Clear);
    case Frame(now) => FrameStrokes(s, now);
    case Answer(promise, ok) => SettleStrokes(s, promise, ok);
    case Resumed => ResumeStrokes(s);
  }

  lemma {:induction false} Reachable(evs: seq<Event>)
    ensures QueueInv(Run(evs)) && StrokeInv(Run(evs))
  {
    hide QueueInv, StrokeInv, Apply;
    if evs == [] {
      FreshKeeps();
      FreshStrokes();
    } else {
      Reachable(evs[..|evs| - 1]);
      ApplyStrokes(Run(evs[..|evs| - 1]), evs[|evs| - 1]);
    }
  }

  lemma FreshStrokes()
    ensures StrokeInv(Fresh)
  {}

  // ----- what reaches the wire -----

  /** First in, first out: once a send has started, every task enqueued before it
      is settled, and the ones that are neither POINTs nor of a failed stroke
      were started before it. */
  lemma Fifo(evs: seq<Event>, p: nat, q: nat)
    requires p < q < |Run(evs).enqueued| && Run(evs).enqueued[q] in Run(evs).started
    ensures var s := Run(evs);
            var t := s.enqueued[p];
            && Settled(s, t)
            && (|| t in s.started
                || (t.input.Point? && SettledAs(s, t, Dropped))
                || (!t.input.Begin? && SettledAs(s, t, Skipped) && t.stroke in s.failed))
  {
    Reachable(evs);
    var s := Run(evs);
    var t, u := s.enqueued[p], s.enqueued[q];
    hide Run, StrokeInv, Bounded, Increasing;
    assert t in s.enqueued && t.promise == p && u.promise == q;
    assert SettledAs(s, t, Dropped) || SettledAs(s, t, Skipped) || SettledAs(s, t, Sent) || SettledAs(s, t, SendFailed);
  }

  /** Started sends keep the order in which they were requested. */
  lemma StartedInOrder(evs: seq<Event>, i: nat, j: nat)
    requires i < j < |Run(evs).started|
    ensures var s := Run(evs);
            && Logged(s.enqueued, s.started[i]) && Logged(s.enqueued, s.started[j])
            && s.started[i].promise < s.started[j].promise
  {
    Reachable(evs);
    hide Run;
    assert Run(evs).started[i] in Run(evs).started && Run(evs).started[j] in Run(evs).started;
  }

  /** Two sends of one stroke: numbers increase and nothing follows an END. */
  lemma StrokeNumbers(evs: seq<Event>, i: nat, j: nat)
    requires i < j < |Run(evs).started| && SameStroke(Run(evs).started[i], Run(evs).started[j])
    ensures var a, b := Run(evs).started[i].input, Run(evs).started[j].input;
            && !a.End? && (b.Point? || b.End?) && a.Drawn()
            && Seq(a) < Seq(b) && a.strokeId == b.strokeId
  {
    StartedInOrder(evs, i, j);
    Reachable(evs);
    var s := Run(evs);
    var a, b := s.started[i], s.started[j];
    hide Run, QueueInv;
    assert Legal(s.enqueued[..b.promise], s.enqueued[b.promise]);
    PrefixMember(s.enqueued, a, b.promise);
  }

  /** A POINT or END on the wire comes after the BEGIN of its stroke, which did
      not fail. */
  lemma BeginComesFirst(evs: seq<Event>, j: nat) returns (i: nat)
    requires j < |Run(evs).started| && (Run(evs).started[j].input.Point? || Run(evs).started[j].input.End?)
    ensures var s := Run(evs);
            && i < j && s.started[i].input.Begin? && SameStroke(s.started[i], s.started[j])
            && s.started[j].stroke !in s.failed
  {
    Reachable(evs);
    var s := Run(evs);
    var u := s.started[j];
    hide Run, LogOk, OpenOk, Legal, Accounted, Truthful, Bounded, Increasing;
    assert u in s.started && Logged(s.enqueued, u);
    var p := BeginLogged(s.enqueued, u);
    Fifo(evs, p, u.promise);
    i :| 0 <= i < |s.started| && s.started[i] == s.enqueued[p];
    NotAfter(evs, i, j, p);
  }

  lemma BeginLogged(log: seq<Task>, u: Task) returns (p: nat)
    requires LogOk(log) && Logged(log, u) && (u.input.Point? || u.input.End?)
    ensures p < u.promise && log[p].input.Begin? && SameStroke(log[p], u)
  {
    assert Legal(log[..u.promise], log[u.promise]);
    var b :| b in log[..u.promise] && SameStroke(b, u) && b.input.Begin?;
    p :| 0 <= p < u.promise && log[..u.promise][p] == b;
  }

  lemma NotAfter(evs: seq<Event>, i: nat, j: nat, p: nat)
    requires i < |Run(evs).started| && j < |Run(evs).started|
    requires p < Run(evs).started[j].promise && p < |Run(evs).enqueued| && Run(evs).started[i] == Run(evs).enqueued[p]
    ensures i < j
  {
    Reachable(evs);
    hide Run, StrokeInv, Accounted, Truthful, Bounded, Increasing;
    assert Run(evs).enqueued[p].promise == p;
    if j < i {
      StartedInOrder(evs, j, i);
    }
  }

  /** Strokes never interleave on the wire: between two sends of one stroke there
      is no send of another drawn stroke. */
  lemma NeverInterleaved(evs: seq<Event>, i: nat, j: nat, k: nat)
    requires i < j < k < |Run(evs).started|
    requires SameStroke(Run(evs).started[i], Run(evs).started[k]) && Run(evs).started[j].input.Drawn()
    ensures SameStroke(Run(evs).started[i], Run(evs).started[j])
  {
    StrokeNumbers(evs, i, k);
    StartedInOrder(evs, i, j);
    StartedInOrder(evs, j, k);
    Reachable(evs);
    var s := Run(evs);
    var a, b, c := s.started[i], s.started[j], s.started[k];
    hide Run, QueueInv;
    assert Legal(s.enqueued[..b.promise], s.enqueued[b.promise]);
    PrefixMember(s.enqueued, a, b.promise);
    assert Legal(s.enqueued[..c.promise], s.enqueued[c.promise]);
    PrefixMember(s.enqueued, b, c.promise);
  }

  /** An undo or clear requested after a stroke ended reaches the wire after that
      stroke's END, unless the END was withheld because the BEGIN had failed. */
  lemma UndoFollowsEnd(evs: seq<Event>, e: nat, k: nat)
    requires k < |Run(evs).started| && (Run(evs).started[k].input.Undo? || Run(evs).started[k].input.Clear?)
    requires e < Run(evs).started[k].promise && e < |Run(evs).enqueued| && Run(evs).enqueued[e].input.End?
    ensures var s := Run(evs);
            var end := s.enqueued[e];
            (exists i :: 0 <= i < k && s.started[i] == end)
            || (SettledAs(s, end, Skipped)
                && exists b :: b in s.started && SameStroke(b, end) && b.input.Begin? && SettledAs(s, b, SendFailed))
  {
    Reachable(evs);
    var s := Run(evs);
    var end, u := s.enqueued[e], s.started[k];
    hide Run, Bounded, Increasing, Accounted, Truthful, LogOk, OpenOk;
    assert u in s.started && Logged(s.enqueued, u) && end.promise == e;
    Fifo(evs, e, u.promise);
    if end in s.started {
      var i :| 0 <= i < |s.started| && s.started[i] == end;
      NotAfter(evs, i, k, e);
    } else {
      var b :| b in s.started && b.stroke == end.stroke && b.input.Begin? && SettledAs(s, b, SendFailed);
      assert SameStroke(b, end);
    }
  }

  // ----- nothing that happened is undone -----

  /** Later states extend the logs and never change how a promise was settled. */
  ghost predicate Extends(s: Session, s': Session) {
    && s.enqueued <= s'.enqueued && s.started <= s'.started && s.failed <= s'.failed
    && forall p :: p in s.outcome ==> p in s'.outcome && s'.outcome[p] == s.outcome[p]
  }

  lemma DropExtends(s: Session)
    requires QueueInv(s) && s.queuedPoints >= MAX_QUEUED_POINTS
    ensures Extends(s, DropOldestPoint(s))
  {
    assert Increasing(s.tasks);
    hide QueueInv, Increasing, PointsIn, DropOldestPoint;
    var gone := DropShape(s);
    WaitingUnsettled(s, gone);
  }

  lemma EnqueueExtends(s: Session, stroke: nat, input: Input)
    requires QueueInv(s)
    ensures Extends(s, Enqueue(s, stroke, input))
  {
    hide QueueInv, DropOldestPoint;
    if input.Point? && s.queuedPoints >= MAX_QUEUED_POINTS {
      DropExtends(s);
      assert DropOldestPoint(s).enqueued == s.enqueued by {
        DropFrame(s);
      }
    }
  }

  lemma FlushExtends(s: Session, force: bool, now: real)
    requires QueueInv(s)
    ensures Extends(s, FlushPending(s, force, now))
  {
    hide QueueInv, Enqueue;
    if s.active.Some? && s.pendingPoint.Some? {
      var s1 := s.(pendingPoint := None, lastFlush := Some(now), activeSeq := s.activeSeq + 1,
                   flushes := s.flushes + [Flush(now, force)]);
      SameQueue(s, s1);
      EnqueueExtends(s1, s.active.value.no, Point(s.active.value.id, s.pendingPoint.value, s.activeSeq + 1));
    }
  }

  lemma EndExtends(s: Session, now: real, endTs: real)
    requires QueueInv(s)
    ensures Extends(s, EndStroke(s, now, endTs))
  {
    hide QueueInv, Enqueue, FlushPending;
    if s.active.Some? {
      FlushKeeps(s, true, now);
      FlushExtends(s, true, now);
      var s1 := FlushPending(s, true, now);
      var s2 := s1.(frame := false, active := None, pendingPoint := None, activeSeq := s1.activeSeq + 1);
      SameQueue(s1, s2);
      EnqueueExtends(s2, s.active.value.no, End(s.active.value.id, endTs, s1.activeSeq + 1));
    }
  }

  lemma FlightUnsettled(s: Session)
    requires QueueInv(s) && s.flight.Some?
    ensures s.flight.value.task.promise !in s.outcome
  {
    assert InFlight(s, s.flight.value.task) && !Settled(s, s.flight.value.task);
  }

  lemma ApplyExtends(s: Session, ev: Event)
    requires QueueInv(s)
    ensures Extends(s, Apply(s, ev))
  {
    hide QueueInv, Enqueue, FlushPending, EndStroke, Pump;
    match ev
    case BeginCall(id, style, at, now, endTs) =>
      EndKeeps(s, now, endTs);
      EndExtends(s, now, endTs);
      var s1 := EndStroke(s, now, endTs);
      var s2 := s1.(active := Some(Stroke(s1.strokes, id)), activeSeq := 1, pendingPoint := None, strokes := s1.strokes + 1);
      SameQueue(s1, s2);
      EnqueueExtends(s2, s1.strokes, Begin(id, style, at, 1));
    case AppendCall(at) =>
    case EndCall(now, endTs) => EndExtends(s, now, endTs);
    case CancelCall =>
    case UndoCall(id) =>
      SameQueue(s, s.(strokes := s.strokes + 1));
      EnqueueExtends(s.(strokes := s.strokes + 1), s.strokes, Undo(id));
    case ClearCall =>
      SameQueue(s, s.(strokes := s.strokes + 1));
      EnqueueExtends(s.(strokes := s.strokes + 1), s.strokes, Clear);
    case Frame(now) =>
      SameQueue(s, s.(frame := false));
      FlushExtends(s.(frame := false), false, now);
    case Answer(promise, ok) =>
      if s.flight.Some? {
        FlightUnsettled(s);
        PumpExtends(s.(failed := if !ok && s.flight.value.task.input.Begin? then s.failed + {s.flight.value.task.stroke} else s.failed,
                       outcome := s.outcome[promise := if ok then Sent else SendFailed]));
      }
    case Resumed =>
      if s.flight.Some? {
        FlightUnsettled(s);
        PumpExtends(s.(outcome := s.outcome[s.flight.value.task.promise := Skipped]));
      }
  }

  lemma PumpExtends(s: Session)
    ensures var s' := Pump(s);
            && s'.enqueued == s.enqueued && s'.outcome == s.outcome && s'.failed == s.failed && s.started <= s'.started
  {}

  /** A promise is settled once and for all, and after a BEGIN has failed nothing
      more of its stroke is ever started. */
  lemma {:induction false} SettledOnce(evs: seq<Event>, more: seq<Event>)
    ensures Extends(Run(evs), Run(evs + more))
    ensures forall k :: |Run(evs).started| <= k < |Run(evs + more).started| ==>
              Run(evs + more).started[k].stroke !in Run(evs).failed
  {
    hide Apply, QueueInv, LogOk, OpenOk;
    if more == [] {
      assert evs + more == evs;
    } else {
      var m := more[..|more| - 1];
      SettledOnce(evs, m);
      var all := evs + more;
      assert all[..|all| - 1] == evs + m;
      Reachable(evs + m);
      ApplyExtends(Run(evs + m), all[|all| - 1]);
    }
    FailedIsSilent(evs, evs + more);
  }

  lemma FailedIsSilent(evs: seq<Event>, all: seq<Event>)
    requires Extends(Run(evs), Run(all))
    ensures forall k :: |Run(evs).started| <= k < |Run(all).started| ==> Run(all).started[k].stroke !in Run(evs).failed
  {
    Reachable(evs);
    Reachable(all);
    var s, s' := Run(evs), Run(all);
    hide Run, QueueInv, OpenOk;
    forall k | |s.started| <= k < |s'.started| && s'.started[k].stroke in s.failed
      ensures false
    {
      var t := s'.started[k];
      assert t in s'.started && t.input.Begin?;
      var b :| b in s.started && b.stroke == t.stroke && b.input.Begin?;
      var i :| 0 <= i < |s.started| && s.started[i] == b;
      StrokeNumbers(all, i, k);
    }
  }
}
