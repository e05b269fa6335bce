/** When a waiting POINT is lost. The header promises that the trailing position
    of a stroke is never lost (apps/client/src/drawing/drawingSession.ts:30-35);
    the overflow rule (lines 400-408) picks the oldest waiting POINT of any
    stroke, so the promise holds up to the enqueueing of the POINT only. */
module DrawingOverflow {
  import opened Wrappers
  import opened DrawingModel
  import opened DrawingOrder

  /** Exactly when enqueueing loses a waiting POINT: 32 POINTs wait, one more
      comes, and the lost one is the oldest of them. */
  lemma LostExactlyOnOverflow(s: Session, stroke: nat, input: Input, t: Task)
    requires QueueInv(s) && t in s.tasks
    ensures SettledAs(Enqueue(s, stroke, input), t, Dropped)
            <==> input.Point? && s.queuedPoints == MAX_QUEUED_POINTS && PointsIn(s.tasks)[0] == t
  {
    hide QueueInv, Increasing, DropOldestPoint, PointsIn, Pump, Bounded;
    Waiting(s, t);
    if input.Point? && s.queuedPoints == MAX_QUEUED_POINTS {
      var gone := DropShape(s);
      assert PointsIn(s.tasks)[0] == gone;
      Waiting(s, gone);
    }
  }

  lemma Waiting(s: Session, t: Task)
    requires QueueInv(s) && t in s.tasks
    ensures !Settled(s, t) && Logged(s.enqueued, t) && s.pumping
    ensures Bounded(s) && Increasing(s.tasks) && s.queuedPoints == |PointsIn(s.tasks)| <= MAX_QUEUED_POINTS
  {
    hide PointsIn, Truthful;
  }

  const somewhere: Position := Position(0.5, 0.5, 0.5, 0.0)
  const pen: Style := Style("pen", "#000000", 2.0)

  /** Stroke "a" is drawn and ended while its BEGIN is stuck in the transport;
      then stroke "b" is drawn at one POINT per 13 ms. */
  function Burst(n: nat): seq<Event> {
    if n == 0 then
      [BeginCall("a", pen, somewhere, 0.0, 0.0), AppendCall(somewhere), EndCall(0.0, 0.0), BeginCall("b", pen, somewhere, 0.0, 0.0)]
    else Burst(n - 1) + [AppendCall(somewhere), Frame(13.0 * n as real)]
  }

  const First: seq<Task> :=
    [Task(0, 0, Begin("a", pen, somewhere, 1)), Task(1, 0, Point("a", somewhere, 2)), Task(2, 0, End("a", 0.0, 3))]

  ghost predicate Stuck(s: Session, n: nat) {
    && s.pumping && s.active.Some? && s.pendingPoint.None? && !s.frame
    && s.tasks != [] && s.tasks[0] == Task(1, 0, Point("a", somewhere, 2))
    && s.queuedPoints == 1 + n && s.outcome == map[]
    && s.lastFlush == Some(13.0 * n as real)
    && First <= s.enqueued
  }

  lemma RunSnoc(evs: seq<Event>, ev: Event)
    ensures Run(evs + [ev]) == Apply(Run(evs), ev)
  {
    assert (evs + [ev])[..|evs|] == evs;
  }

  lemma BurstStart()
    ensures Stuck(Run(Burst(0)), 0)
  {
    var e := Burst(0);
    var s1 := Apply(Fresh, e[0]);
    var s2 := Apply(s1, e[1]);
    var s3 := Apply(s2, e[2]);
    var s4 := Apply(s3, e[3]);
    assert s1.flight == Some(Sending(Task(0, 0, Begin("a", pen, somewhere, 1)))) && s1.tasks == [];
    assert s3.tasks == [Task(1, 0, Point("a", somewhere, 2)), Task(2, 0, End("a", 0.0, 3))];
    hide Apply;
    assert e == [e[0]] + [e[1]] + [e[2]] + [e[3]];
    RunSnoc([], e[0]);
    RunSnoc([e[0]], e[1]);
    RunSnoc([e[0]] + [e[1]], e[2]);
    RunSnoc([e[0]] + [e[1]] + [e[2]], e[3]);
    assert [] + [e[0]] == [e[0]];
    assert s4.enqueued[..3] == First;
  }

  function OneMore(s: Session, n: nat): Session {
    Apply(Apply(s, AppendCall(somewhere)), Frame(13.0 * n as real))
  }

  lemma RunBurst(n: nat)
    requires n > 0
    ensures Run(Burst(n)) == OneMore(Run(Burst(n - 1)), n)
  {
    hide Apply;
    var evs, a, b := Burst(n - 1), AppendCall(somewhere), Frame(13.0 * n as real);
    RunSnoc(evs, a);
    RunSnoc(evs + [a], b);
    assert evs + [a] + [b] == Burst(n);
  }

  lemma BurstStep(s: Session, n: nat)
    requires Stuck(s, n) && n < 31
    ensures Stuck(OneMore(s, n + 1), n + 1)
  {}

  lemma {:induction false} BurstShape(n: nat)
    requires n <= 31
    ensures Stuck(Run(Burst(n)), n)
  {
    if n == 0 {
      BurstStart();
    } else {
      hide Stuck, OneMore;
      BurstShape(n - 1);
      BurstStep(Run(Burst(n - 1)), n - 1);
      RunBurst(n);
    }
  }

  lemma BurstOverflow(s: Session)
    requires Stuck(s, 31)
    ensures OneMore(s, 32).outcome == map[1 := Dropped] && First <= OneMore(s, 32).enqueued
  {
    assert FirstPoint(s.tasks) == Some(0);
  }

  /** A run in which the trailing position of a finished stroke is lost: its last
      POINT (promise 1, right before the END) is dropped unsent. */
  lemma TrailingPositionLost()
    ensures Run(Burst(32)).outcome == map[1 := Dropped] && First <= Run(Burst(32)).enqueued
  {
    hide Run, OneMore, Stuck;
    BurstShape(31);
    BurstOverflow(Run(Burst(31)));
    RunBurst(32);
  }
}
