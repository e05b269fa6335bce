/** What Ctrl+Z targets and the bookkeeping of unanswered undo requests
    (apps/client/src/drawing/undoPolicy.ts). */
module UndoPolicy {
  import opened Wrappers

  type Id = string

  /** `endedAt` is 0 while the stroke is still being drawn. */
  datatype Candidate = Candidate(id: Id, endedAt: int)

  datatype Plan = Remote(id: Id) | Local | Nothing

  /** The tracker's fields; `armed` is the timer service: the handles that may
      still fire and the stroke each was set for. */
  datatype Tracker = Tracker(pending: set<Id>, gaveUp: set<Id>, timers: map<Id, nat>, armed: map<nat, Id>, next: nat)

  const Fresh: Tracker := Tracker({}, {}, map[], map[], 0)

  predicate Eligible(c: Candidate, pending: set<Id>, gaveUp: set<Id>) {
    c.endedAt != 0 && c.id !in pending && c.id !in gaveUp
  }

  /** Position of the newest eligible stroke. */
  function Pick(strokes: seq<Candidate>, pending: set<Id>, gaveUp: set<Id>): (r: Option<nat>)
    ensures r.Some? ==> r.value < |strokes| && Eligible(strokes[r.value], pending, gaveUp)
    ensures r.Some? ==> forall j :: r.value < j < |strokes| ==> !Eligible(strokes[j], pending, gaveUp)
    ensures r.None? ==> forall j :: 0 <= j < |strokes| ==> !Eligible(strokes[j], pending, gaveUp)
  {
    if strokes == [] then None
    else if Eligible(strokes[|strokes| - 1], pending, gaveUp) then Some(|strokes| - 1)
    else Pick(strokes[..|strokes| - 1], pending, gaveUp)
  }

  method PickUndoTarget(strokes: seq<Candidate>, pending: set<Id>, gaveUp: set<Id>) returns (target: Option<Id>)
    ensures target == match Pick(strokes, pending, gaveUp) case None => None case Some(i) => Some(strokes[i].id)
  {
    var i := |strokes| - 1;
    while i >= 0
      invariant -1 <= i < |strokes|
      invariant Pick(strokes, pending, gaveUp) == Pick(strokes[..i + 1], pending, gaveUp)
    {
      var s := strokes[i];
      assert strokes[..i + 1][..i] == strokes[..i];
      if s.endedAt != 0 && s.id !in pending && s.id !in gaveUp {
        return Some(s.id);
      }
      i := i - 1;
    }
    return None;
  }

  method PlanUndo(canUndoOwn: bool, strokes: seq<Candidate>, pending: set<Id>, gaveUp: set<Id>) returns (plan: Plan)
    ensures !canUndoOwn ==> plan == if strokes != [] then Local else Nothing
    ensures canUndoOwn ==> (plan == Nothing <==> forall c :: c in strokes ==> !Eligible(c, pending, gaveUp))
    ensures canUndoOwn && plan != Nothing ==>
              exists i :: 0 <= i < |strokes| && plan == Remote(strokes[i].id) && Eligible(strokes[i], pending, gaveUp)
                && forall j :: i < j < |strokes| ==> !Eligible(strokes[j], pending, gaveUp)
  {
    if !canUndoOwn {
      return if |strokes| > 0 then Local else Nothing;
    }
    var target := PickUndoTarget(strokes, pending, gaveUp);
    return match target case None => Nothing case Some(id) => Remote(id);
  }

  // ----- the tracker's transitions -----

  function WithoutTimer(t: Tracker, id: Id): Tracker {
    if id in t.timers then t.(armed := t.armed - {t.timers[id]}, timers := t.timers - {id}) else t
  }

  function AfterSent(t: Tracker, id: Id): Tracker {
    var t1 := WithoutTimer(t, id);
    t1.(pending := t1.pending + {id}, timers := t1.timers[id := t1.next], armed := t1.armed[t1.next := id], next := t1.next + 1)
  }

  function AfterFailure(t: Tracker, id: Id): Tracker {
    var t1 := WithoutTimer(t, id);
    t1.(pending := t1.pending - {id})
  }

  function AfterAnswer(t: Tracker, id: Id): Tracker {
    var t1 := WithoutTimer(t, id);
    t1.(pending := t1.pending - {id}, gaveUp := t1.gaveUp - {id})
  }

  function AfterReset(t: Tracker): Tracker {
    Tracker({}, {}, map[], t.armed - t.timers.Values, t.next)
  }

  /** Timer `h` fires, unless it was cleared; the callback runs for its stroke. */
  function Fire(t: Tracker, h: nat): Tracker {
    if h !in t.armed then t
    else
      var id := t.armed[h];
      t.(armed := t.armed - {h}, timers := t.timers - {id}, pending := t.pending - {id},
         gaveUp := if id in t.pending then t.gaveUp + {id} else t.gaveUp)
  }

  datatype Event = Sent(id: Id) | Failed(id: Id) | Answered(id: Id) | Cleared | TimerFires(h: nat)

  function Apply(t: Tracker, ev: Event): Tracker {
    match ev
    case Sent(id) => AfterSent(t, id)
    case Failed(id) => AfterFailure(t, id)
    case Answered(id) => AfterAnswer(t, id)
    case Cleared => AfterReset(t)
    case TimerFires(h) => Fire(t, h)
  }

  /** Exactly the pending strokes have a timer, and exactly these timers can fire. */
  ghost predicate Timed(t: Tracker) {
    && t.timers.Keys == t.pending
    && (forall id :: id in t.timers ==> t.timers[id] in t.armed && t.armed[t.timers[id]] == id)
    && (forall h :: h in t.armed ==> h < t.next && t.armed[h] in t.timers && t.timers[t.armed[h]] == h)
  }

  lemma ApplyTimed(t: Tracker, ev: Event)
    requires Timed(t)
    ensures Timed(Apply(t, ev))
  {}

  /** The two sets stay disjoint, unless a stroke that was given up is marked. */
  lemma ApplyDisjoint(t: Tracker, ev: Event)
    requires Timed(t) && t.pending !! t.gaveUp
    ensures Apply(t, ev).pending !! Apply(t, ev).gaveUp <==> !(ev.Sent? && ev.id in t.gaveUp)
  {
    if ev.Sent? {
      assert ev.id in Apply(t, ev).pending;
    }
  }

  /** The timer of a stroke fires. */
  predicate TimesOut(t: Tracker, ev: Event, id: Id) {
    ev.TimerFires? && ev.h in t.armed && t.armed[ev.h] == id
  }

  /** Exactly which strokes await an answer, and which are given up, after each event: a
      failure takes back a request but not a surrender, an answer and a reset both. */
  lemma EventMarks(t: Tracker, ev: Event, id: Id)
    requires Timed(t)
    ensures id in Apply(t, ev).pending
            <==> ev == Sent(id)
                 || (id in t.pending && !(ev == Failed(id) || ev == Answered(id) || ev == Cleared || TimesOut(t, ev, id)))
    ensures id in Apply(t, ev).gaveUp
            <==> TimesOut(t, ev, id) || (id in t.gaveUp && !(ev == Answered(id) || ev == Cleared))
    ensures id in t.pending <==> exists h :: TimesOut(t, TimerFires(h), id)
  {
    if id in t.pending {
      assert TimesOut(t, TimerFires(t.timers[id]), id);
    }
  }

  // ----- presses of the undo key -----

  /** A press plans on the strokes then on the canvas and marks its target; between
      presses strokes may be drawn or removed and other events may come. */
  datatype Step = Press(strokes: seq<Candidate>) | Other(ev: Event)

  /** The stroke a step requests to be undone. */
  function Request(t: Tracker, step: Step): Option<Id> {
    match step
    case Press(strokes) =>
      (match Pick(strokes, t.pending, t.gaveUp) case None => None case Some(i) => Some(strokes[i].id))
    case Other(_) => None
  }

  function ApplyStep(t: Tracker, step: Step): Tracker {
    match step
    case Press(strokes) =>
      (match Pick(strokes, t.pending, t.gaveUp)
       case None => t
       case Some(i) => AfterSent(t, strokes[i].id))
    case Other(ev) => if ev.Sent? then t else Apply(t, ev)
  }

  function Run(steps: seq<Step>): Tracker {
    if steps == [] then Fresh else ApplyStep(Run(steps[..|steps| - 1]), steps[|steps| - 1])
  }

  /** Runs that mark only picked targets, on any canvases, with any answers,
      failures, resets and timers in between. */
  lemma {:induction false} PickedRuns(steps: seq<Step>)
    ensures Timed(Run(steps)) && Run(steps).pending !! Run(steps).gaveUp
  {
    hide Timed, Apply, Pick;
    if steps == [] {
      FreshTimed();
    } else {
      PickedRuns(steps[..|steps| - 1]);
      var t := Run(steps[..|steps| - 1]);
      match steps[|steps| - 1]
      case Press(strokes) =>
        var pick := Pick(strokes, t.pending, t.gaveUp);
        if pick.Some? {
          MarkIsApply(t, strokes[pick.value].id);
          ApplyTimed(t, Sent(strokes[pick.value].id));
          ApplyDisjoint(t, Sent(strokes[pick.value].id));
        }
      case Other(ev) =>
        ApplyTimed(t, ev);
        ApplyDisjoint(t, ev);
    }
  }

  /** The request of step `k`. */
  function RequestAt(steps: seq<Step>, k: nat): Option<Id>
    requires k < |steps|
  {
    Request(Run(steps[..k]), steps[k])
  }

  /** Steps that make a stroke targetable again. */
  predicate Releases(step: Step, id: Id) {
    step.Other? && (step.ev == Failed(id) || step.ev == Answered(id) || step.ev == Cleared)
  }

  lemma Requested(t: Tracker, step: Step)
    ensures var r := Request(t, step);
            r.Some? ==> && r.value !in t.pending && r.value !in t.gaveUp
                        && r.value in ApplyStep(t, step).pending
                        && exists c :: c in step.strokes && c.id == r.value && c.endedAt != 0
  {
    hide Eligible;
    if step.Press? {
      var pick := Pick(step.strokes, t.pending, t.gaveUp);
      if pick.Some? {
        var c := step.strokes[pick.value];
        assert c in step.strokes;
        assert c.endedAt != 0 && c.id !in t.pending && c.id !in t.gaveUp by {
          EligibleIs(c, t);
        }
      }
    }
  }

  lemma EligibleIs(c: Candidate, t: Tracker)
    ensures Eligible(c, t.pending, t.gaveUp) <==> c.endedAt != 0 && c.id !in t.pending && c.id !in t.gaveUp
  {}

  /** A marked stroke stays marked until it is released. */
  lemma StaysMarked(t: Tracker, step: Step, id: Id)
    requires Timed(t) && id in t.pending + t.gaveUp && !Releases(step, id)
    ensures id in ApplyStep(t, step).pending + ApplyStep(t, step).gaveUp
  {
    hide Pick;
  }

  lemma {:induction false} MarkedSince(steps: seq<Step>, i: nat, j: nat)
    requires i < j <= |steps| && RequestAt(steps, i).Some?
    requires forall k :: i < k < j ==> !Releases(steps[k], RequestAt(steps, i).value)
    ensures var t := Run(steps[..j]);
            RequestAt(steps, i).value in t.pending + t.gaveUp
    decreases j
  {
    hide ApplyStep, Request, Releases, Timed;
    assert steps[..j][..j - 1] == steps[..j - 1];
    if j == i + 1 {
      Requested(Run(steps[..i]), steps[i]);
    } else {
      MarkedSince(steps, i, j - 1);
      PickedRuns(steps[..j - 1]);
      StaysMarked(Run(steps[..j - 1]), steps[j - 1], RequestAt(steps, i).value);
    }
  }

  /** In any run, on any canvases, a stroke is requested a second time only after a
      failure or an answer for it, or a reset, came in between. */
  lemma RequestedAgain(steps: seq<Step>, i: nat, j: nat) returns (k: nat)
    requires i < j < |steps| && RequestAt(steps, i).Some? && RequestAt(steps, j) == RequestAt(steps, i)
    ensures i < k < j && Releases(steps[k], RequestAt(steps, i).value)
  {
    hide ApplyStep, Request, Releases;
    var id := RequestAt(steps, i).value;
    if forall k :: i < k < j ==> !Releases(steps[k], id) {
      MarkedSince(steps, i, j);
      Requested(Run(steps[..j]), steps[j]);
      assert false;
    }
    k :| i < k < j && Releases(steps[k], id);
  }

  /** A stroke that was given up is not requested again before an answer for it or a reset,
      not even after a failure. */
  lemma {:induction false} GivenUpStays(steps: seq<Step>, i: nat, j: nat, id: Id)
    requires i <= j < |steps| && id in Run(steps[..i]).gaveUp
    requires forall k :: i <= k < j ==> steps[k] != Other(Answered(id)) && steps[k] != Other(Cleared)
    ensures id in Run(steps[..j]).gaveUp && RequestAt(steps, j) != Some(id)
    decreases j
  {
    hide Timed, Apply, Pick, Eligible;
    if i < j {
      GivenUpStays(steps, i, j - 1, id);
      assert steps[..j][..j - 1] == steps[..j - 1];
      PickedRuns(steps[..j - 1]);
      var t, step := Run(steps[..j - 1]), steps[j - 1];
      match step
      case Press(strokes) =>
        var pick := Pick(strokes, t.pending, t.gaveUp);
        if pick.Some? {
          MarkIsApply(t, strokes[pick.value].id);
          EventMarks(t, Sent(strokes[pick.value].id), id);
        }
      case Other(ev) => EventMarks(t, ev, id);
    }
    Requested(Run(steps[..j]), steps[j]);
  }

  ghost predicate Silent(steps: seq<Step>) {
    forall i :: 0 <= i < |steps| ==> steps[i].Press? || steps[i].ev.TimerFires?
  }

  /** With no answer, failure or reset no stroke is requested twice, whatever is drawn
      or removed between the presses, and only finished strokes are requested. */
  lemma SilentAtMostOnce(steps: seq<Step>, i: nat)
    requires Silent(steps) && i < |steps| && RequestAt(steps, i).Some?
    ensures forall j :: i < j < |steps| ==> RequestAt(steps, j) != RequestAt(steps, i)
    ensures exists c :: c in steps[i].strokes && c.id == RequestAt(steps, i).value && c.endedAt != 0
  {
    forall j | i < j < |steps|
      ensures RequestAt(steps, j) != RequestAt(steps, i)
    {
      hide RequestAt;
      if RequestAt(steps, j) == RequestAt(steps, i) {
        var k := RequestedAgain(steps, i, j);
        assert false;
      }
    }
    Requested(Run(steps[..i]), steps[i]);
  }

  lemma MarkIsApply(t: Tracker, id: Id)
    ensures Apply(t, Sent(id)) == AfterSent(t, id)
  {}

  lemma FreshTimed()
    ensures Timed(Fresh)
  {}

  function EligibleCount(strokes: seq<Candidate>, t: Tracker): nat {
    if strokes == [] then 0
    else EligibleCount(strokes[..|strokes| - 1], t)
         + if Eligible(strokes[|strokes| - 1], t.pending, t.gaveUp) then 1 else 0
  }

  /** Strokes that are not eligible any more stay so, and one of them newly. */
  lemma {:induction false} CountDrops(strokes: seq<Candidate>, t: Tracker, t': Tracker, i: nat)
    requires forall c :: c in strokes && Eligible(c, t'.pending, t'.gaveUp) ==> Eligible(c, t.pending, t.gaveUp)
    ensures EligibleCount(strokes, t') <= EligibleCount(strokes, t)
    ensures i < |strokes| && Eligible(strokes[i], t.pending, t.gaveUp) && !Eligible(strokes[i], t'.pending, t'.gaveUp) ==>
              EligibleCount(strokes, t') < EligibleCount(strokes, t)
  {
    if strokes != [] {
      var n := |strokes| - 1;
      assert forall c :: c in strokes[..n] ==> c in strokes;
      CountDrops(strokes[..n], t, t', i);
      assert strokes[n] in strokes;
    }
  }

  /** With no answer, failure or reset, every step keeps ineligible strokes
      ineligible, and a press that finds a target strictly decreases the number
      of eligible ones. */
  lemma SilentStep(strokes: seq<Candidate>, t: Tracker, step: Step)
    requires Timed(t) && (step == Press(strokes) || (step.Other? && step.ev.TimerFires?))
    ensures var t' := ApplyStep(t, step);
            && (forall c :: Eligible(c, t'.pending, t'.gaveUp) ==> Eligible(c, t.pending, t.gaveUp))
            && EligibleCount(strokes, t') <= EligibleCount(strokes, t)
            && (step.Press? && Pick(strokes, t.pending, t.gaveUp).Some? ==> EligibleCount(strokes, t') < EligibleCount(strokes, t))
  {
    hide EligibleCount, Timed;
    var t' := ApplyStep(t, step);
    var pick := Pick(strokes, t.pending, t.gaveUp);
    match step
    case Press(_) => CountDrops(strokes, t, t', if pick.Some? then pick.value else 0);
    case Other(ev) => CountDrops(strokes, t, t', 0);
  }

  /** A silent run on one canvas. */
  ghost predicate SilentOn(strokes: seq<Candidate>, steps: seq<Step>) {
    forall i :: 0 <= i < |steps| ==> steps[i] == Press(strokes) || (steps[i].Other? && steps[i].ev.TimerFires?)
  }

  function Picks(strokes: seq<Candidate>, steps: seq<Step>): seq<nat> {
    if steps == [] then []
    else
      var t := Run(steps[..|steps| - 1]);
      var pick := Pick(strokes, t.pending, t.gaveUp);
      Picks(strokes, steps[..|steps| - 1])
      + if steps[|steps| - 1].Press? && pick.Some? then [pick.value] else []
  }

  lemma {:induction false} SilentCount(strokes: seq<Candidate>, steps: seq<Step>)
    requires SilentOn(strokes, steps)
    ensures |Picks(strokes, steps)| + EligibleCount(strokes, Run(steps)) <= EligibleCount(strokes, Fresh)
  {
    hide EligibleCount, Timed, ApplyStep, Pick, Eligible;
    if steps != [] {
      SilentCount(strokes, steps[..|steps| - 1]);
      PickedRuns(steps[..|steps| - 1]);
      SilentStep(strokes, Run(steps[..|steps| - 1]), steps[|steps| - 1]);
    }
  }

  ghost predicate Descending(picks: seq<nat>) {
    forall a, b :: 0 <= a < b < |picks| ==> picks[b] < picks[a]
  }

  /** Everything from the last pick on has had its request. */
  ghost predicate DoneFrom(strokes: seq<Candidate>, picks: seq<nat>, t: Tracker) {
    && (forall a :: 0 <= a < |picks| ==> picks[a] < |strokes| && strokes[picks[a]].endedAt != 0)
    && (picks != [] ==> forall j :: picks[|picks| - 1] <= j < |strokes| ==> !Eligible(strokes[j], t.pending, t.gaveUp))
  }

  lemma {:induction false} SilentOrder(strokes: seq<Candidate>, steps: seq<Step>)
    requires SilentOn(strokes, steps)
    ensures Descending(Picks(strokes, steps)) && DoneFrom(strokes, Picks(strokes, steps), Run(steps))
  {
    hide EligibleCount, Timed, ApplyStep, Pick, Descending, DoneFrom;
    if steps == [] {
      NothingPicked(strokes, Fresh);
    } else {
      var before, step := steps[..|steps| - 1], steps[|steps| - 1];
      SilentOrder(strokes, before);
      PickedRuns(before);
      var t, t', picks := Run(before), Run(steps), Picks(strokes, before);
      SilentStep(strokes, t, step);
      DoneStays(strokes, picks, t, t');
      var pick := Pick(strokes, t.pending, t.gaveUp);
      if step.Press? && pick.Some? {
        PressTarget(strokes, t);
        PickNext(strokes, picks, t, t', pick.value);
      } else {
        assert picks + [] == picks;
      }
    }
  }

  lemma NothingPicked(strokes: seq<Candidate>, t: Tracker)
    ensures Descending([]) && DoneFrom(strokes, [], t)
  {}

  lemma DoneStays(strokes: seq<Candidate>, picks: seq<nat>, t: Tracker, t': Tracker)
    requires DoneFrom(strokes, picks, t)
    requires forall c :: Eligible(c, t'.pending, t'.gaveUp) ==> Eligible(c, t.pending, t.gaveUp)
    ensures DoneFrom(strokes, picks, t')
  {
    hide Eligible;
  }

  lemma PickNext(strokes: seq<Candidate>, picks: seq<nat>, t: Tracker, t': Tracker, i: nat)
    requires Descending(picks) && DoneFrom(strokes, picks, t) && DoneFrom(strokes, picks, t')
    requires Pick(strokes, t.pending, t.gaveUp) == Some(i) && !Eligible(strokes[i], t'.pending, t'.gaveUp)
    requires forall c :: Eligible(c, t'.pending, t'.gaveUp) ==> Eligible(c, t.pending, t.gaveUp)
    ensures Descending(picks + [i]) && DoneFrom(strokes, picks + [i], t')
  {
    hide Pick;
    assert picks != [] ==> i < picks[|picks| - 1];
  }

  /** In a silent run on one canvas the requests go from newest to oldest, each position at
      most once, and their number plus the strokes still eligible never exceeds
      the number of strokes that were eligible at the start. */
  lemma SilentRun(strokes: seq<Candidate>, steps: seq<Step>)
    requires SilentOn(strokes, steps)
    ensures var picks, t := Picks(strokes, steps), Run(steps);
            && Descending(picks) && DoneFrom(strokes, picks, t)
            && |picks| + EligibleCount(strokes, t) <= EligibleCount(strokes, Fresh)
  {
    SilentCount(strokes, steps);
    SilentOrder(strokes, steps);
  }

  lemma PressTarget(strokes: seq<Candidate>, t: Tracker)
    ensures var pick := Pick(strokes, t.pending, t.gaveUp);
            pick.Some? ==> !Eligible(strokes[pick.value], ApplyStep(t, Press(strokes)).pending, ApplyStep(t, Press(strokes)).gaveUp)
  {}

  /** The tracker as an object. */
  class UndoTracker {
    var pending: set<Id>
    var gaveUp: set<Id>
    var timers: map<Id, nat>
    var armed: map<nat, Id>
    var next: nat

    ghost function Abs(): Tracker
      reads this
    {
      Tracker(pending, gaveUp, timers, armed, next)
    }

    ghost predicate Valid()
      reads this
    {
      Timed(Abs())
    }

    constructor ()
      ensures Valid() && Abs() == Fresh
    {
      pending, gaveUp, timers, armed, next := {}, {}, map[], map[], 0;
    }

    method SetTimer(id: Id) returns (h: nat)
      modifies this`armed, this`next
      ensures h == old(next) && armed == old(armed)[h := id] && next == old(next) + 1
    {
      h := next;
      armed := armed[h := id];
      next := next + 1;
    }

    method DropTimer(id: Id)
      modifies this
      ensures Abs() == WithoutTimer(old(Abs()), id)
    {
      if id in timers {
        armed := armed - {timers[id]};
        timers := timers - {id};
      }
    }

    method MarkSent(id: Id)
      requires Valid()
      modifies this
      ensures Valid() && Abs() == AfterSent(old(Abs()), id)
    {
      ApplyTimed(Abs(), Sent(id));
      DropTimer(id);
      pending := pending + {id};
      var h := SetTimer(id);
      timers := timers[id := h];
    }

    method SendFailed(id: Id)
      requires Valid()
      modifies this
      ensures Valid() && Abs() == AfterFailure(old(Abs()), id)
    {
      ApplyTimed(Abs(), Failed(id));
      DropTimer(id);
      pending := pending - {id};
    }

    method Confirmed(id: Id)
      requires Valid()
      modifies this
      ensures Valid() && Abs() == AfterAnswer(old(Abs()), id)
    {
      ApplyTimed(Abs(), Answered(id));
      DropTimer(id);
      pending := pending - {id};
      gaveUp := gaveUp - {id};
    }

    method Reset()
      requires Valid()
      modifies this
      ensures Valid() && Abs() == AfterReset(old(Abs()))
      ensures armed == map[]
    {
      var handles := timers.Values;
      ghost var all := handles;
      while handles != {}
        invariant handles <= all && armed == old(armed) - (all - handles)
        invariant timers == old(timers) && pending == old(pending) && gaveUp == old(gaveUp) && next == old(next)
        decreases handles
      {
        var h :| h in handles;
        armed := armed - {h};
        handles := handles - {h};
      }
      timers := map[];
      pending := {};
      gaveUp := {};
    }

    /** The timer service runs the callback of handle `h`. */
    method OnTimer(h: nat)
      requires Valid()
      modifies this
      ensures Valid() && Abs() == Fire(old(Abs()), h)
    {
      ApplyTimed(Abs(), TimerFires(h));
      if h !in armed {
        return;
      }
      var id := armed[h];
      armed := armed - {h};
      timers := timers - {id};
      if id in pending {
        pending := pending - {id};
        gaveUp := gaveUp + {id};
      }
    }
  }
}
