/** What a pointer does and what becomes of it: every accepted sample is one local point
    and, while the stroke is sent, one call of the session, with its own coordinates
    clamped to the unit square (apps/client/src/drawing/pointerPipeline.ts:69-243). */
module PipelineSamples {
  import opened Wrappers
  import M = DrawingModel
  import C = DrawingCalls
  import opened PipelineModel

  // ----- what the pointer events mean -----

  /** The stroke in progress: whose pointer draws it and whether it is sent. */
  datatype Hand = Hand(open: bool, pointer: Option<int>, sending: bool)

  const Idle: Hand := Hand(false, None, false)

  predicate Readable(s: Sample) {
    s.x != NotFinite && s.y != NotFinite && s.pressure != NotFinite && s.ts != NotFinite
  }

  /** The sample belongs to the stroke in progress, as far as its pointer tells. */
  predicate Heeds(h: Hand, s: Sample) {
    h.open && (h.pointer.None? || s.pointerId.None? || h.pointer == s.pointerId)
  }

  predicate Lifts(h: Hand, at: Option<Sample>) {
    match at case None => h.open case Some(s) => Heeds(h, s)
  }

  function HandAfter(h: Hand, ev: Event): Hand {
    match ev
    case DownEvent(_, s, _, allowed, _, _) => if Readable(s) then Hand(true, s.pointerId, allowed) else h
    case UpEvent(s, _, _) => if Heeds(h, s) then Idle else h
    case CancelEvent(at, _, _) => if Lifts(h, at) then Idle else h
    case FinishEvent(_, _, _) => Idle
    case _ => h
  }

  /** What a local sink is asked to do. */
  datatype Step = Start(id: string, style: M.Style) | Show(sample: Sample) | Stop

  function LocalSteps(h: Hand, ev: Event): seq<Step> {
    match ev
    case DownEvent(style, s, id, _, _, _) => if Readable(s) then (if h.open then [Stop] else []) + [Start(id, style), Show(s)] else []
    case MoveEvent(s) => if Heeds(h, s) && Readable(s) then [Show(s)] else []
    case UpEvent(s, _, _) => if Heeds(h, s) then (if Readable(s) then [Show(s)] else []) + [Stop] else []
    case CancelEvent(at, _, _) => if Lifts(h, at) then [Stop] else []
    case FinishEvent(_, _, _) => if h.open then [Stop] else []
    case SessionEvent(_) => []
  }

  /** What the session is asked to do. */
  datatype NetStep =
    | Open(id: string, style: M.Style, sample: Sample, now: real, endTs: real)
    | Extend(sample: Sample)
    | Close(now: real, endTs: real)
    | Abandon
    | Other(ev: M.Event)

  function NetSteps(h: Hand, ev: Event): seq<NetStep> {
    match ev
    case DownEvent(style, s, id, allowed, now, endTs) =>
      if Readable(s) then
        (if h.sending then [Close(now, endTs)] else []) + (if allowed then [Open(id, style, s, now, endTs)] else [])
      else []
    case MoveEvent(s) => if Heeds(h, s) && h.sending && Readable(s) then [Extend(s)] else []
    case UpEvent(s, now, endTs) =>
      if Heeds(h, s) && h.sending then (if Readable(s) then [Extend(s)] else []) + [Close(now, endTs)] else []
    case CancelEvent(at, now, endTs) => if Lifts(h, at) && h.sending then [Close(now, endTs)] else []
    case FinishEvent(sendEnd, now, endTs) => if h.sending then [if sendEnd then Close(now, endTs) else Abandon] else []
    case SessionEvent(e) => [Other(e)]
  }

  function HandOf(evs: seq<Event>): Hand {
    if evs == [] then Idle else HandAfter(HandOf(evs[..|evs| - 1]), evs[|evs| - 1])
  }

  function LocalScript(evs: seq<Event>): seq<Step> {
    if evs == [] then []
    else LocalScript(evs[..|evs| - 1]) + LocalSteps(HandOf(evs[..|evs| - 1]), evs[|evs| - 1])
  }

  function NetScript(evs: seq<Event>): seq<NetStep> {
    if evs == [] then []
    else NetScript(evs[..|evs| - 1]) + NetSteps(HandOf(evs[..|evs| - 1]), evs[|evs| - 1])
  }

  // ----- doing it -----

  /** `c` is `v` if that lies in the unit interval, and the nearer bound otherwise. */
  predicate Clamps(c: real, v: real) {
    if v < 0.0 then c == 0.0 else if v > 1.0 then c == 1.0 else c == v
  }

  /** `q` shows the sample. */
  predicate ShownAt(q: M.Position, s: Sample) {
    && Readable(s)
    && Clamps(q.x, s.x.value) && Clamps(q.y, s.y.value) && Clamps(q.pressure, s.pressure.value)
    && q.tsMs == s.ts.value
  }

  predicate Does(c: LocalCall, step: Step) {
    match step
    case Start(id, style) => c == LocalBegin(id, style)
    case Show(s) => c.LocalPoint? && ShownAt(c.at, s)
    case Stop => c == LocalEnd
  }

  predicate Sends(e: M.Event, step: NetStep) {
    match step
    case Open(id, style, s, now, endTs) => e.BeginCall? && e == M.BeginCall(id, style, e.at, now, endTs) && ShownAt(e.at, s)
    case Extend(s) => e.AppendCall? && ShownAt(e.at, s)
    case Close(now, endTs) => e == M.EndCall(now, endTs)
    case Abandon => e == M.CancelCall
    case Other(ev) => e == ev
  }

  ghost predicate Follows(calls: seq<LocalCall>, steps: seq<Step>) {
    |calls| == |steps| && forall i :: 0 <= i < |calls| ==> Does(calls[i], steps[i])
  }

  ghost predicate Carries(es: seq<M.Event>, steps: seq<NetStep>) {
    |es| == |steps| && forall i :: 0 <= i < |es| ==> Sends(es[i], steps[i])
  }

  ghost predicate InHand(p: Pipe, h: Hand) {
    p.activeId.Some? == h.open && p.activePointer == h.pointer && p.networked == h.sending && (!h.open ==> h == Idle)
  }

  lemma AtShows(s: Sample)
    requires Readable(s)
    ensures IsFinite(s) && ShownAt(At(s), s)
  {}

  lemma ReadableIs(s: Sample)
    ensures Readable(s) <==> IsFinite(s)
  {}

  function ApplyAll(s: M.Session, es: seq<M.Event>): M.Session {
    if es == [] then s else M.Apply(ApplyAll(s, es[..|es| - 1]), es[|es| - 1])
  }

  lemma {:induction false} RunAppend(a: seq<M.Event>, b: seq<M.Event>)
    ensures M.Run(a + b) == ApplyAll(M.Run(a), b)
  {
    hide M.Apply;
    if b == [] {
      assert a + b == a;
    } else {
      RunAppend(a, b[..|b| - 1]);
      assert (a + b)[..|a + b| - 1] == a + b[..|b| - 1];
    }
  }

  lemma ApplyOne(s: M.Session, e: M.Event)
    ensures ApplyAll(s, [e]) == M.Apply(s, e) && ApplyAll(s, []) == s
  {
    hide M.Apply;
    assert [e][..0] == [];
  }

  /** What one event makes the local sink and the session do. */
  ghost predicate Done(p: Pipe, h: Hand, ev: Event, calls: seq<LocalCall>, es: seq<M.Event>) {
    && Apply(p, ev).local == p.local + calls && Follows(calls, LocalSteps(h, ev))
    && Apply(p, ev).session == ApplyAll(p.session, es) && Carries(es, NetSteps(h, ev))
    && InHand(Apply(p, ev), HandAfter(h, ev))
  }

  lemma FinishDone(p: Pipe, h: Hand, sendEnd: bool, now: real, endTs: real) returns (calls: seq<LocalCall>, es: seq<M.Event>)
    requires InHand(p, h)
    ensures Finish(p, sendEnd, now, endTs).local == p.local + calls && calls == (if h.open then [LocalEnd] else [])
    ensures Finish(p, sendEnd, now, endTs).session == ApplyAll(p.session, es)
    ensures es == (if h.sending then [if sendEnd then M.EndCall(now, endTs) else M.CancelCall] else [])
    ensures InHand(Finish(p, sendEnd, now, endTs), Idle)
  {
    hide M.EndStroke, M.CancelStroke;
    calls := if h.open then [LocalEnd] else [];
    es := if h.sending then [if sendEnd then M.EndCall(now, endTs) else M.CancelCall] else [];
    ApplyOne(p.session, if sendEnd then M.EndCall(now, endTs) else M.CancelCall);
    assert p.local + [] == p.local;
  }

  lemma MoveDone(p: Pipe, h: Hand, s: Sample) returns (calls: seq<LocalCall>, es: seq<M.Event>)
    requires InHand(p, h)
    ensures Done(p, h, MoveEvent(s), calls, es)
  {
    hide M.AppendPoint, ShownAt;
    calls, es := [], [];
    ReadableIs(s);
    ApplyOne(p.session, M.CancelCall);
    assert p.local + [] == p.local;
    if Heeds(h, s) && Readable(s) {
      AtShows(s);
      hide At, Readable, IsFinite;
      calls := [LocalPoint(At(s))];
      if h.sending {
        es := [M.AppendCall(At(s))];
        ApplyOne(p.session, M.AppendCall(At(s)));
      }
    }
  }

  lemma UpDone(p: Pipe, h: Hand, s: Sample, now: real, endTs: real) returns (calls: seq<LocalCall>, es: seq<M.Event>)
    requires InHand(p, h)
    ensures Done(p, h, UpEvent(s, now, endTs), calls, es)
  {
    hide Move, Finish, ShownAt, Readable, ApplyAll;
    calls, es := [], [];
    ApplyOne(p.session, M.CancelCall);
    assert p.local + [] == p.local;
    if Heeds(h, s) {
      var c1, e1 := MoveDone(p, h, s);
      var c2, e2 := FinishDone(Move(p, s), h, true, now, endTs);
      calls, es := c1 + c2, e1 + e2;
      assert p.local + c1 + c2 == p.local + calls;
      ApplyAppend(p.session, e1, e2);
      hide Apply, Does, Sends;
    }
  }

  lemma {:induction false} ApplyAppend(s: M.Session, a: seq<M.Event>, b: seq<M.Event>)
    ensures ApplyAll(s, a + b) == ApplyAll(ApplyAll(s, a), b)
  {
    hide M.Apply;
    if b == [] {
      assert a + b == a;
    } else {
      ApplyAppend(s, a, b[..|b| - 1]);
      assert (a + b)[..|a + b| - 1] == a + b[..|b| - 1];
    }
  }

  lemma DownDone(p: Pipe, h: Hand, style: M.Style, s: Sample, id: string, allowed: bool, now: real, endTs: real)
      returns (calls: seq<LocalCall>, es: seq<M.Event>)
    requires InHand(p, h)
    ensures Done(p, h, DownEvent(style, s, id, allowed, now, endTs), calls, es)
  {
    hide Finish, ShownAt, M.BeginStroke;
    calls, es := [], [];
    ReadableIs(s);
    ApplyOne(p.session, M.CancelCall);
    assert p.local + [] == p.local;
    if Readable(s) {
      AtShows(s);
      hide At, Readable, IsFinite;
      var c1, e1 := FinishDone(p, h, true, now, endTs);
      var begin := M.BeginCall(id, style, At(s), now, endTs);
      calls := c1 + [LocalBegin(id, style), LocalPoint(At(s))];
      es := e1 + if allowed then [begin] else [];
      assert p.local + calls == p.local + c1 + [LocalBegin(id, style), LocalPoint(At(s))];
      ApplyAppend(p.session, e1, if allowed then [begin] else []);
      ApplyOne(ApplyAll(p.session, e1), begin);
    }
  }

  lemma EventDone(p: Pipe, h: Hand, ev: Event) returns (calls: seq<LocalCall>, es: seq<M.Event>)
    requires InHand(p, h)
    ensures Done(p, h, ev, calls, es)
  {
    hide Move, Down, M.Apply;
    match ev
    case DownEvent(style, s, id, allowed, now, endTs) => calls, es := DownDone(p, h, style, s, id, allowed, now, endTs);
    case MoveEvent(s) => calls, es := MoveDone(p, h, s);
    case UpEvent(s, now, endTs) => calls, es := UpDone(p, h, s, now, endTs);
    case CancelEvent(at, now, endTs) =>
      hide Finish;
      calls, es := FinishDone(p, h, true, now, endTs);
      if !Lifts(h, at) {
        calls, es := [], [];
        ApplyOne(p.session, M.CancelCall);
        assert p.local + [] == p.local;
      }
    case FinishEvent(sendEnd, now, endTs) =>
      hide Finish;
      calls, es := FinishDone(p, h, sendEnd, now, endTs);
    case SessionEvent(e) =>
      calls, es := [], [e];
      ApplyOne(p.session, e);
      assert p.local + [] == p.local;
  }

  /** In every run the local sink is asked for exactly what the pointer does: a stroke per
      readable pointer down, one point per accepted sample, at its own clamped coordinates,
      and an end per stroke. The session is asked for the same of the strokes that may be
      sent, at the same positions. */
  lemma {:induction false} SamplesAreDrawn(evs: seq<Event>) returns (es: seq<M.Event>)
    ensures Follows(Run(evs).local, LocalScript(evs)) && InHand(Run(evs), HandOf(evs))
    ensures Run(evs).session == M.Run(es) && Carries(es, NetScript(evs))
  {
    hide Apply, ApplyAll, LocalSteps, NetSteps, HandAfter, Does, Sends, M.Apply;
    es := [];
    if evs != [] {
      var before, ev := evs[..|evs| - 1], evs[|evs| - 1];
      var es1 := SamplesAreDrawn(before);
      var calls, es2 := EventDone(Run(before), HandOf(before), ev);
      es := es1 + es2;
      RunAppend(es1, es2);
    }
  }

  // ----- a finished stroke, from the pointer to the wire -----

  /** The samples shown since the last start. */
  function SamplesSince(steps: seq<Step>): seq<Sample> {
    if steps == [] then []
    else
      match steps[|steps| - 1]
      case Start(_, _) => []
      case Show(s) => SamplesSince(steps[..|steps| - 1]) + [s]
      case Stop => SamplesSince(steps[..|steps| - 1])
  }

  ghost predicate EachShown(points: seq<M.Position>, samples: seq<Sample>) {
    |points| == |samples| && forall k :: 0 <= k < |points| ==> ShownAt(points[k], samples[k])
  }

  /** The k-th local point of a stroke is the k-th accepted sample. */
  lemma {:induction false} PointsAreSamples(calls: seq<LocalCall>, steps: seq<Step>)
    requires Follows(calls, steps)
    ensures EachShown(LocalPoints(calls), SamplesSince(steps))
  {
    hide ShownAt;
    if calls != [] {
      PointsAreSamples(calls[..|calls| - 1], steps[..|steps| - 1]);
      assert Does(calls[|calls| - 1], steps[|steps| - 1]);
    }
  }

  /** The positions show some of the samples, in order. */
  ghost predicate ShowsSome(wire: seq<M.Position>, samples: seq<Sample>) {
    || wire == []
    || (samples != []
        && (|| (ShownAt(wire[|wire| - 1], samples[|samples| - 1]) && ShowsSome(wire[..|wire| - 1], samples[..|samples| - 1]))
            || ShowsSome(wire, samples[..|samples| - 1])))
  }

  lemma {:induction false} SubsequenceShows(wire: seq<M.Position>, points: seq<M.Position>, samples: seq<Sample>)
    requires IsSubsequence(wire, points) && EachShown(points, samples)
    ensures ShowsSome(wire, samples)
    decreases |points|
  {
    hide ShownAt;
    if wire != [] {
      var a, b, c := wire[..|wire| - 1], points[..|points| - 1], samples[..|samples| - 1];
      if IsSubsequence(wire, b) {
        SubsequenceShows(wire, b, c);
      } else {
        SubsequenceShows(a, b, c);
      }
    }
  }

  /** A stroke whose END is enqueued, from the pointer to the wire: its sends show, in
      order, some of the samples accepted between a pointer down and the end of that stroke,
      the first and the last among them, each at its own clamped coordinates. */
  lemma FinishedSamples(evs: seq<Event>, t: M.Task) returns (n: nat)
    requires forall i :: 0 <= i < |evs| ==> Allowed(evs[i])
    requires t in Run(evs).session.enqueued && t.input.End?
    ensures n < |LocalScript(evs)| && LocalScript(evs)[n] == Stop
    ensures var wire, samples := Wire(Run(evs).session.enqueued, t.stroke), SamplesSince(LocalScript(evs)[..n]);
            && wire != [] && samples != [] && ShowsSome(wire, samples)
            && ShownAt(wire[0], samples[0]) && ShownAt(wire[|wire| - 1], samples[|samples| - 1])
  {
    n := FinishedStroke(evs, t);
    var es := SamplesAreDrawn(evs);
    hide Run, LocalScript, Wire, LocalPoints, LocalId, SamplesSince, IsSubsequence, ShownAt, NetScript, ShowsSome;
    var local, script := Run(evs).local, LocalScript(evs);
    assert Does(local[n], script[n]);
    PointsAreSamples(local[..n], script[..n]);
    SubsequenceShows(Wire(Run(evs).session.enqueued, t.stroke), LocalPoints(local[..n]), SamplesSince(script[..n]));
  }

  /** Every BEGIN, END, undo and clear of a composed run is one that the pointer or the user
      asked for, in order: the BEGINs are the strokes that may be sent, with their style and
      the position of their first sample. */
  lemma SendsAreAsked(evs: seq<Event>) returns (es: seq<M.Event>)
    ensures Carries(es, NetScript(evs)) && C.Asks(Run(evs).session.enqueued) == C.Asked(es)
  {
    es := SamplesAreDrawn(evs);
    C.LogIsAsked(es);
  }
}
