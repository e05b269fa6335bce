/** What the drawing queue guarantees in every interleaving of user calls,
    frames, answers and timeouts: order, closure and conservation. */
module DrawingOrder {
  import opened Wrappers
  import opened DrawingModel

  // ----- the queue: every promise is waiting, in flight or settled -----

  ghost predicate InFlight(s: Session, t: Task) {
    s.flight.Some? && s.flight.value.task == t
  }

  ghost predicate Settled(s: Session, t: Task) {
    t.promise in s.outcome
  }

  ghost predicate SettledAs(s: Session, t: Task, o: Outcome) {
    t.promise in s.outcome && s.outcome[t.promise] == o
  }

  ghost predicate Increasing(tasks: seq<Task>) {
    forall i, j :: 0 <= i < j < |tasks| ==> tasks[i].promise < tasks[j].promise
  }

  ghost predicate Logged(log: seq<Task>, t: Task) {
    t.promise < |log| && log[t.promise] == t
  }

  function PointsIn(tasks: seq<Task>): seq<Task> {
    if tasks == [] then []
    else PointsIn(tasks[..|tasks| - 1]) + if tasks[|tasks| - 1].input.Point? then [tasks[|tasks| - 1]] else []
  }

  ghost predicate IsSuffix(tail: seq<Task>, all: seq<Task>) {
    |tail| <= |all| && all[|all| - |tail|..] == tail
  }

  /** Waiting tasks are the logged ones, oldest first, behind the one in flight. */
  ghost predicate Ordered(s: Session) {
    && (forall p :: 0 <= p < |s.enqueued| ==> s.enqueued[p].promise == p)
    && Increasing(s.tasks)
    && Increasing(s.started)
    && (forall t :: t in s.tasks ==> Logged(s.enqueued, t))
    && (forall t :: t in s.started ==> Logged(s.enqueued, t))
    && (forall a, b :: a in s.started && b in s.tasks ==> a.promise < b.promise)
    && (s.flight.Some? ==>
          && Logged(s.enqueued, s.flight.value.task)
          && (forall a :: a in s.started ==> a.promise <= s.flight.value.task.promise)
          && forall t :: t in s.tasks ==> s.flight.value.task.promise < t.promise)
  }

  /** Each enqueued task has exactly one status. */
  ghost predicate Accounted(s: Session) {
    && (forall p :: p in s.outcome ==> p < |s.enqueued|)
    && (forall t :: t in s.enqueued ==> Settled(s, t) || t in s.tasks || InFlight(s, t))
    && (forall t :: t in s.tasks ==> !Settled(s, t) && !InFlight(s, t))
    && (forall t :: InFlight(s, t) ==> !Settled(s, t))
  }

  /** The statuses mean what they say. */
  ghost predicate Truthful(s: Session) {
    && (forall t :: t in s.enqueued && SettledAs(s, t, Dropped) ==> t.input.Point?)
    && (forall t :: t in s.enqueued && SettledAs(s, t, Skipped) ==> t.stroke in s.failed && !t.input.Begin?)
    && (forall t :: t in s.enqueued && (SettledAs(s, t, Sent) || SettledAs(s, t, SendFailed)) ==> t in s.started)
    && (forall t :: t in s.started ==> s.flight == Some(Sending(t)) || SettledAs(s, t, Sent) || SettledAs(s, t, SendFailed))
    && (s.flight.Some? && s.flight.value.Sending? ==> s.flight.value.task in s.started)
    && (s.flight.Some? && s.flight.value.Skipping? ==>
          s.flight.value.task.stroke in s.failed && !s.flight.value.task.input.Begin?)
  }

  /** The waiting POINTs are the newest ones and their number is the counter. */
  ghost predicate Bounded(s: Session) {
    && s.queuedPoints == |PointsIn(s.tasks)| <= MAX_QUEUED_POINTS
    && IsSuffix(PointsIn(s.tasks), PointsIn(s.enqueued))
  }

  /** No wake-up is lost: a queue that is not empty is being pumped. */
  ghost predicate Awake(s: Session) {
    && s.pumping == s.flight.Some?
    && (s.tasks != [] ==> s.pumping)
  }

  ghost predicate QueueInv(s: Session) {
    Ordered(s) && Accounted(s) && Truthful(s) && Bounded(s) && Awake(s)
  }

  // ----- POINTs of a queue -----

  lemma {:induction false} PointsAppend(a: seq<Task>, b: seq<Task>)
    ensures PointsIn(a + b) == PointsIn(a) + PointsIn(b)
  {
    if b == [] {
      assert a + b == a;
    } else {
      PointsAppend(a, b[..|b| - 1]);
      assert (a + b)[..|a + b| - 1] == a + b[..|b| - 1];
    }
  }

  lemma PointsOne(t: Task)
    ensures PointsIn([t]) == if t.input.Point? then [t] else []
  {
    assert [t][..0] == [];
  }

  lemma PointsHead(tasks: seq<Task>)
    requires tasks != []
    ensures PointsIn(tasks) == (if tasks[0].input.Point? then [tasks[0]] else []) + PointsIn(tasks[1..])
  {
    PointsAppend([tasks[0]], tasks[1..]);
    PointsOne(tasks[0]);
    assert tasks == [tasks[0]] + tasks[1..];
  }

  lemma {:induction false} NoPoints(tasks: seq<Task>)
    requires forall i :: 0 <= i < |tasks| ==> !tasks[i].input.Point?
    ensures PointsIn(tasks) == []
  {
    if tasks != [] {
      NoPoints(tasks[..|tasks| - 1]);
    }
  }

  // ----- the pump -----

  /** The state in which the pump's loop looks at the queue: nothing is in flight. */
  ghost predicate AtLoopHead(s: Session) {
    var idle := s.(flight := None);
    Ordered(idle) && Accounted(idle) && Truthful(idle) && Bounded(idle)
  }

  lemma TailMembers(tasks: seq<Task>)
    requires tasks != [] && Increasing(tasks)
    ensures Increasing(tasks[1..])
    ensures forall t :: t in tasks <==> t == tasks[0] || t in tasks[1..]
    ensures forall t :: t in tasks[1..] ==> tasks[0].promise < t.promise
  {
    assert tasks == [tasks[0]] + tasks[1..];
  }

  lemma AddMembers(tasks: seq<Task>, t: Task)
    requires Increasing(tasks) && forall u :: u in tasks ==> u.promise < t.promise
    ensures Increasing(tasks + [t])
    ensures forall u :: u in tasks + [t] <==> u in tasks || u == t
  {
    forall i | 0 <= i < |tasks|
      ensures tasks[i].promise < t.promise
    {
      assert tasks[i] in tasks;
    }
  }

  lemma PumpOrdered(s: Session)
    requires Ordered(s.(flight := None))
    ensures Ordered(Pump(s))
  {
    if s.tasks != [] {
      TailMembers(s.tasks);
      AddMembers(s.started, s.tasks[0]);
    }
  }

  lemma PumpAccounted(s: Session)
    requires Accounted(s.(flight := None)) && Increasing(s.tasks)
    ensures Accounted(Pump(s))
  {
    if s.tasks != [] {
      TailMembers(s.tasks);
    }
  }

  lemma PumpTruthful(s: Session)
    requires Truthful(s.(flight := None))
    ensures Truthful(Pump(s))
  {
    if s.tasks != [] {
      assert forall t :: t in s.started + [s.tasks[0]] <==> t in s.started || t == s.tasks[0];
    }
  }

  lemma PumpBounded(s: Session)
    requires Bounded(s)
    ensures Bounded(Pump(s))
  {
    hide PointsIn, IsSuffix;
    if s.tasks != [] {
      PointsHead(s.tasks);
      var tail := PointsIn(s.tasks[1..]);
      if s.tasks[0].input.Point? {
        assert PointsIn(s.tasks)[1..] == tail;
        SuffixTail(PointsIn(s.tasks), PointsIn(s.enqueued));
      } else {
        assert [] + tail == tail;
      }
    }
  }

  lemma SuffixTail(tail: seq<Task>, all: seq<Task>)
    requires IsSuffix(tail, all) && tail != []
    ensures IsSuffix(tail[1..], all)
  {
    assert all[|all| - |tail|..][1..] == all[|all| - |tail| + 1..];
  }

  lemma PumpAwake(s: Session)
    ensures Awake(Pump(s))
  {}

  lemma PumpKeeps(s: Session)
    requires AtLoopHead(s)
    ensures QueueInv(Pump(s))
  {
    assert Increasing(s.tasks) && Bounded(s);
    hide Ordered, Accounted, Truthful, Bounded, Awake, Pump;
    PumpOrdered(s);
    PumpAccounted(s);
    PumpTruthful(s);
    PumpBounded(s);
    PumpAwake(s);
  }

  // ----- enqueue -----

  function Without(tasks: seq<Task>, i: nat): seq<Task>
    requires i < |tasks|
  {
    tasks[..i] + tasks[i + 1..]
  }

  lemma WithoutMembers(tasks: seq<Task>, i: nat)
    requires i < |tasks| && Increasing(tasks)
    ensures Increasing(Without(tasks, i))
    ensures forall t :: t in Without(tasks, i) <==> t in tasks && t != tasks[i]
  {
    var r := Without(tasks, i);
    assert forall k :: 0 <= k < |r| ==> r[k] == if k < i then tasks[k] else tasks[k + 1];
    forall t | t in tasks && t != tasks[i]
      ensures t in r
    {
      var k :| 0 <= k < |tasks| && tasks[k] == t;
      assert r[if k < i then k else k - 1] == t;
    }
  }

  /** What dropping the oldest waiting POINT does. */
  lemma DropShape(s: Session) returns (gone: Task)
    requires s.queuedPoints > 0 && Bounded(s) && Increasing(s.tasks)
    ensures gone in s.tasks && gone.input.Point?
    ensures var s' := DropOldestPoint(s);
            && s' == s.(tasks := s'.tasks, queuedPoints := s.queuedPoints - 1, outcome := s.outcome[gone.promise := Dropped])
            && Increasing(s'.tasks)
            && (forall t :: t in s'.tasks <==> t in s.tasks && t != gone)
            && PointsIn(s.tasks) == [gone] + PointsIn(s'.tasks)
  {
    if FirstPoint(s.tasks).None? {
      NoPoints(s.tasks);
    }
    var i := FirstPoint(s.tasks).value;
    gone := s.tasks[i];
    WithoutMembers(s.tasks, i);
    DropPoints(s.tasks, i);
    assert DropOldestPoint(s).tasks == Without(s.tasks, i);
  }

  lemma DropKeeps(s: Session)
    requires QueueInv(s) && s.queuedPoints > 0
    ensures QueueInv(DropOldestPoint(s)) && DropOldestPoint(s).queuedPoints == s.queuedPoints - 1
  {
    assert Increasing(s.tasks);
    hide DropOldestPoint, PointsIn, Accounted, Truthful, Increasing, Logged, Ordered, Awake;
    var gone := DropShape(s);
    var s' := DropOldestPoint(s);
    DropOrdered(s, gone, s');
    NoneWaiting(s, s');
    DropBounded(s, gone, s');
    DropStatus(s, gone, s');
  }

  lemma DropOrdered(s: Session, gone: Task, s': Session)
    requires Ordered(s) && Increasing(s'.tasks) && forall t :: t in s'.tasks <==> t in s.tasks && t != gone
    requires s'.enqueued == s.enqueued && s'.started == s.started && s'.flight == s.flight
    ensures Ordered(s')
  {
    hide Increasing, Logged;
  }

  lemma NoneWaiting(s: Session, s': Session)
    requires Awake(s) && s'.pumping == s.pumping && s'.flight == s.flight && forall t :: t in s'.tasks ==> t in s.tasks
    ensures Awake(s')
  {
    if s'.tasks != [] {
      assert s'.tasks[0] in s.tasks;
    }
  }

  lemma DropBounded(s: Session, gone: Task, s': Session)
    requires Bounded(s) && PointsIn(s.tasks) == [gone] + PointsIn(s'.tasks)
    requires s'.enqueued == s.enqueued && s'.queuedPoints == s.queuedPoints - 1
    ensures Bounded(s')
  {
    hide PointsIn;
    var all, tail := PointsIn(s.enqueued), PointsIn(s'.tasks);
    assert all[|all| - |tail|..] == all[|all| - |tail| - 1..][1..];
  }

  lemma DropStatus(s: Session, gone: Task, s': Session)
    requires Ordered(s) && Accounted(s) && Truthful(s)
    requires gone in s.tasks && gone.input.Point?
    requires forall t :: t in s'.tasks <==> t in s.tasks && t != gone
    requires s' == s.(tasks := s'.tasks, queuedPoints := s'.queuedPoints, outcome := s.outcome[gone.promise := Dropped])
    ensures Accounted(s') && Truthful(s')
  {
    assert forall t :: t in s.enqueued && t.promise == gone.promise ==> t == gone;
    forall t | t in s'.started
      ensures t.promise != gone.promise
    {
    }
  }

  lemma DropPoints(tasks: seq<Task>, i: nat)
    requires FirstPoint(tasks) == Some(i)
    ensures PointsIn(tasks) == [tasks[i]] + PointsIn(tasks[..i] + tasks[i + 1..])
  {
    hide FirstPoint, PointsIn;
    NoPoints(tasks[..i]);
    PointsAppend(tasks[..i], tasks[i..]);
    PointsHead(tasks[i..]);
    PointsAppend(tasks[..i], tasks[i + 1..]);
    assert tasks == tasks[..i] + tasks[i..] && tasks[i..][1..] == tasks[i + 1..];
  }

  function Push(s: Session, t: Task): Session {
    s.(queuedPoints := if t.input.Point? then s.queuedPoints + 1 else s.queuedPoints,
       tasks := s.tasks + [t], enqueued := s.enqueued + [t])
  }

  lemma PushOrdered(s: Session, t: Task)
    requires Ordered(s) && t.promise == |s.enqueued|
    ensures Ordered(Push(s, t))
  {
    AddMembers(s.tasks, t);
    assert forall u :: Logged(s.enqueued, u) ==> Logged(s.enqueued + [t], u);
  }

  lemma PushStatus(s: Session, t: Task)
    requires Ordered(s) && Accounted(s) && Truthful(s) && t.promise == |s.enqueued|
    ensures Accounted(Push(s, t)) && Truthful(Push(s, t))
  {
    assert !Settled(s, t) && !InFlight(s, t);
    assert forall u :: u in s.started ==> u in s.enqueued && u != t;
    hide Ordered;
    assert forall u :: u in s.tasks + [t] <==> u in s.tasks || u == t;
    assert forall u :: u in s.enqueued + [t] <==> u in s.enqueued || u == t;
    PushTruthful(s, t);
    hide Truthful;
  }

  lemma PushTruthful(s: Session, t: Task)
    requires Truthful(s) && !Settled(s, t)
    ensures Truthful(Push(s, t))
  {
    assert forall u :: u in s.enqueued + [t] <==> u in s.enqueued || u == t;
  }

  lemma PushBounded(s: Session, t: Task)
    requires Bounded(s) && (t.input.Point? ==> s.queuedPoints < MAX_QUEUED_POINTS)
    ensures Bounded(Push(s, t))
  {
    PointsAppend(s.tasks, [t]);
    PointsAppend(s.enqueued, [t]);
    PointsOne(t);
  }

  lemma PushKeeps(s: Session, t: Task)
    requires QueueInv(s) && t.promise == |s.enqueued| && (t.input.Point? ==> s.queuedPoints < MAX_QUEUED_POINTS)
    ensures if s.pumping then QueueInv(Push(s, t)) else AtLoopHead(Push(s, t))
  {
    PushOrdered(s, t);
    PushStatus(s, t);
    PushBounded(s, t);
    hide Ordered, Accounted, Truthful, Bounded;
    assert !s.pumping ==> Push(s, t).(flight := None) == Push(s, t);
  }

  lemma EnqueueKeeps(s: Session, stroke: nat, input: Input)
    requires QueueInv(s)
    ensures QueueInv(Enqueue(s, stroke, input))
  {
    hide Ordered, Accounted, Truthful, Push, Pump, DropOldestPoint;
    var task := Task(|s.enqueued|, stroke, input);
    var s1 := s;
    if input.Point? && s.queuedPoints >= MAX_QUEUED_POINTS {
      DropKeeps(s);
      s1 := DropOldestPoint(s);
      DropFrame(s);
    }
    PushKeeps(s1, task);
    AppendIsPush(s1, s, stroke, input);
    if !s.pumping {
      PumpKeeps(Push(s1, task));
    }
  }

  lemma DropFrame(s: Session)
    ensures DropOldestPoint(s).pumping == s.pumping && DropOldestPoint(s).enqueued == s.enqueued
  {}

  lemma AppendIsPush(s1: Session, s: Session, stroke: nat, input: Input)
    requires s1 == if input.Point? && s.queuedPoints >= MAX_QUEUED_POINTS then DropOldestPoint(s) else s
    ensures Append(s, stroke, input) == Push(s1, Task(|s.enqueued|, stroke, input))
    ensures Append(s, stroke, input).pumping == s.pumping
  {}

  // ----- settling -----

  function SettledBy(s: Session, t: Task, o: Outcome, failed: set<nat>): Session {
    s.(outcome := s.outcome[t.promise := o], failed := failed)
  }

  lemma SettleTruthful(s: Session, t: Task, o: Outcome, failed: set<nat>)
    requires Ordered(s) && Accounted(s) && Truthful(s) && InFlight(s, t) && s.failed <= failed
    requires if s.flight.value.Sending? then o == Sent || o == SendFailed else o == Skipped
    ensures Truthful(SettledBy(s, t, o, failed).(flight := None))
  {
    assert forall u :: u in s.enqueued && u.promise == t.promise ==> u == t;
    assert forall u :: u in s.started ==> u in s.enqueued;
    assert t in s.enqueued && !Settled(s, t);
    hide Ordered, Accounted, Truthful;
    OneMoreTruth(s, t, o, failed);
  }

  lemma OneMoreTruth(s: Session, t: Task, o: Outcome, failed: set<nat>)
    requires Truthful(s) && InFlight(s, t) && s.failed <= failed && t in s.enqueued && !Settled(s, t)
    requires forall u :: u in s.enqueued && u.promise == t.promise ==> u == t
    requires forall u :: u in s.started ==> u in s.enqueued
    requires if s.flight.value.Sending? then o == Sent || o == SendFailed else o == Skipped
    ensures Truthful(SettledBy(s, t, o, failed).(flight := None))
  {
    var s' := SettledBy(s, t, o, failed).(flight := None);
    forall u | u in s.started
      ensures SettledAs(s', u, Sent) || SettledAs(s', u, SendFailed)
    {
      if u != t {
        assert u.promise != t.promise;
      }
    }
  }

  lemma SettleAccounted(s: Session, t: Task, o: Outcome, failed: set<nat>)
    requires Ordered(s) && Accounted(s) && InFlight(s, t)
    ensures Accounted(SettledBy(s, t, o, failed).(flight := None))
  {
    assert forall u :: u in s.tasks ==> u.promise != t.promise;
  }

  lemma SettleAtLoopHead(s: Session, t: Task, o: Outcome, failed: set<nat>)
    requires QueueInv(s) && InFlight(s, t) && s.failed <= failed
    requires if s.flight.value.Sending? then o == Sent || o == SendFailed else o == Skipped
    ensures AtLoopHead(SettledBy(s, t, o, failed))
  {
    SettleTruthful(s, t, o, failed);
    SettleAccounted(s, t, o, failed);
    hide Accounted, Truthful, Increasing, Logged;
    assert Ordered(SettledBy(s, t, o, failed).(flight := None));
  }

  lemma SettleKeeps(s: Session, promise: nat, ok: bool)
    requires QueueInv(s)
    ensures QueueInv(Settle(s, promise, ok))
  {
    hide QueueInv, AtLoopHead, Pump;
    if s.flight.Some? && s.flight.value.Sending? && s.flight.value.task.promise == promise {
      var t := s.flight.value.task;
      var failed := if !ok && t.input.Begin? then s.failed + {t.stroke} else s.failed;
      var o := if ok then Sent else SendFailed;
      SettleAtLoopHead(s, t, o, failed);
      PumpKeeps(SettledBy(s, t, o, failed));
    }
  }

  lemma ResumeKeeps(s: Session)
    requires QueueInv(s)
    ensures QueueInv(Resume(s))
  {
    hide QueueInv, AtLoopHead, Pump;
    if s.flight.Some? && s.flight.value.Skipping? {
      var t := s.flight.value.task;
      SettleAtLoopHead(s, t, Skipped, s.failed);
      PumpKeeps(SettledBy(s, t, Skipped, s.failed));
      assert SettledBy(s, t, Skipped, s.failed) == s.(outcome := s.outcome[t.promise := Skipped]);
    }
  }

  // ----- every event -----

  lemma FlushKeeps(s: Session, force: bool, now: real)
    requires QueueInv(s)
    ensures QueueInv(FlushPending(s, force, now))
  {
    hide QueueInv, Enqueue;
    if s.active.Some? && s.pendingPoint.Some? {
      var s1 := s.(pendingPoint := None, lastFlush := Some(now), activeSeq := s.activeSeq + 1,
                   flushes := s.flushes + [Flush(now, force)]);
      SameQueue(s, s1);
      EnqueueKeeps(s1, s.active.value.no, Point(s.active.value.id, s.pendingPoint.value, s.activeSeq + 1));
    }
  }

  /** The invariant reads only the queue. */
  lemma SameQueue(s: Session, s': Session)
    requires QueueInv(s)
    requires s' == s.(active := s'.active, activeSeq := s'.activeSeq, pendingPoint := s'.pendingPoint, lastFlush := s'.lastFlush,
                      frame := s'.frame, strokes := s'.strokes, flushes := s'.flushes)
    ensures QueueInv(s')
  {
    hide PointsIn, Increasing, IsSuffix, Logged;
    SameStatus(s, s');
    hide Accounted, Truthful;
  }

  lemma SameStatus(s: Session, s': Session)
    requires Accounted(s) && Truthful(s) && s'.enqueued == s.enqueued && s'.started == s.started && s'.tasks == s.tasks
    requires s'.flight == s.flight && s'.outcome == s.outcome && s'.failed == s.failed
    ensures Accounted(s') && Truthful(s')
  {
    forall t
      ensures InFlight(s', t) == InFlight(s, t) && Settled(s', t) == Settled(s, t)
    {}
  }

  lemma EndKeeps(s: Session, now: real, endTs: real)
    requires QueueInv(s)
    ensures QueueInv(EndStroke(s, now, endTs))
  {
    hide QueueInv, Enqueue, FlushPending;
    if s.active.Some? {
      FlushKeeps(s, true, now);
      var s1 := FlushPending(s, true, now);
      var s2 := s1.(frame := false, active := None, pendingPoint := None, activeSeq := s1.activeSeq + 1);
      SameQueue(s1, s2);
      EnqueueKeeps(s2, s.active.value.no, End(s.active.value.id, endTs, s1.activeSeq + 1));
    }
  }

  /** Every event keeps the queue invariant. */
  lemma ApplyKeeps(s: Session, ev: Event)
    requires QueueInv(s)
    ensures QueueInv(Apply(s, ev))
  {
    hide QueueInv, Enqueue, FlushPending, EndStroke, Settle, Resume;
    match ev
    case BeginCall(id, style, at, now, endTs) =>
      EndKeeps(s, now, endTs);
      var s1 := EndStroke(s, now, endTs);
      var s2 := s1.(active := Some(Stroke(s1.strokes, id)), activeSeq := 1, pendingPoint := None, strokes := s1.strokes + 1);
      SameQueue(s1, s2);
      EnqueueKeeps(s2, s1.strokes, Begin(id, style, at, 1));
    case AppendCall(at) => SameQueue(s, AppendPoint(s, at));
    case EndCall(now, endTs) => EndKeeps(s, now, endTs);
    case CancelCall => SameQueue(s, CancelStroke(s));
    case UndoCall(id) =>
      SameQueue(s, s.(strokes := s.strokes + 1));
      EnqueueKeeps(s.(strokes := s.strokes + 1), s.strokes, Undo(id));
    case ClearCall =>
      SameQueue(s, s.(strokes := s.strokes + 1));
      EnqueueKeeps(s.(strokes := s.strokes + 1), s.strokes, Clear);
    case Frame(now) =>
      SameQueue(s, s.(frame := false));
      FlushKeeps(s.(frame := false), false, now);
      var s1 := FlushPending(s.(frame := false), false, now);
      SameQueue(s1, s1.(frame := true));
    case Answer(promise, ok) => SettleKeeps(s, promise, ok);
    case Resumed => ResumeKeeps(s);
  }

  /** Queue conservation in every reachable state: the counter is the number of
      waiting POINTs and at most 32, these are the newest ones enqueued, every
      task is settled once, waiting or in flight, and no wake-up is lost. */
  lemma {:induction false} Conservation(evs: seq<Event>)
    ensures QueueInv(Run(evs))
  {
    hide QueueInv, Apply;
    if evs == [] {
      FreshKeeps();
    } else {
      Conservation(evs[..|evs| - 1]);
      ApplyKeeps(Run(evs[..|evs| - 1]), evs[|evs| - 1]);
    }
  }

  lemma FreshKeeps()
    ensures QueueInv(Fresh)
  {}
}
