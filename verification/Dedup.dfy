/** Per-sender reordering of playback events (apps/client/src/drift/dedup.ts):
    decisions for one event, the expiry tick, and what a stream of events comes
    out as. */
module Dedup {
  import opened Wrappers

  const BUFFER_TIMEOUT_MS: int := 5000

  type Sender = string

  datatype Playback<+T> = Playback(sender: Sender, seq_: int, body: T)

  datatype Parked<+T> = Parked(event: Playback<T>, parkedAtMs: int, seq_: int)

  datatype SenderState<+T> = SenderState(last: int, pending: Option<Parked<T>>)

  /** A `Map` with its iteration order. */
  datatype State<+T> = State(order: seq<Sender>, bySender: map<Sender, SenderState<T>>)

  datatype Reason = Duplicate | OutOfOrder

  datatype Decision<+T> =
    | ApplyIt(event: Playback<T>, seq_: int, drain: Option<Playback<T>>)
    | Drop(reason: Reason)
    | Buffer

  /** An event handed to the store, with the sequence number it counts as. */
  datatype Applied<+T> = Applied(event: Playback<T>, seq_: int)

  function Set<T>(s: State<T>, sender: Sender, v: SenderState<T>): State<T> {
    State(if sender in s.bySender then s.order else s.order + [sender], s.bySender[sender := v])
  }

  function Get<T>(s: State<T>, sender: Sender): Option<SenderState<T>> {
    if sender in s.bySender then Some(s.bySender[sender]) else None
  }

  /** The decision for one event against its sender's state, and that state after. */
  function Decide<T>(ss: Option<SenderState<T>>, e: Playback<T>, now: int): (Decision<T>, Option<SenderState<T>>) {
    var n := e.seq_;
    match ss
    case None =>
      if n <= 0 then (Drop(Duplicate), None)
      else if n == 1 then (ApplyIt(e, 1, None), Some(SenderState(1, None)))
      else (Buffer, Some(SenderState(0, Some(Parked(e, now, n)))))
    case Some(s) =>
      if n == 1 && s.last > 1 then (ApplyIt(e, 1, None), Some(SenderState(1, None)))
      else if n <= s.last then (Drop(Duplicate), ss)
      else if n == s.last + 1 then
        if s.pending.Some? && s.pending.value.seq_ == n + 1
        then (ApplyIt(e, n, Some(s.pending.value.event)), Some(SenderState(n + 1, None)))
        else (ApplyIt(e, n, None), Some(SenderState(n, None)))
      else if s.pending.Some? && s.pending.value.seq_ >= n then (Drop(OutOfOrder), ss)
      else (Buffer, Some(s.(pending := Some(Parked(e, now, n)))))
  }

  function EvaluateDedup<T>(s: State<T>, e: Playback<T>, now: int): (Decision<T>, State<T>) {
    var (d, ss) := Decide(Get(s, e.sender), e, now);
    (d, if ss.Some? then Set(s, e.sender, ss.value) else s)
  }

  predicate Expired<T>(ss: SenderState<T>, now: int) {
    ss.pending.Some? && now - ss.pending.value.parkedAtMs >= BUFFER_TIMEOUT_MS
  }

  function Ticked<T>(ss: SenderState<T>, now: int): SenderState<T> {
    if Expired(ss, now) then SenderState(ss.pending.value.seq_, None) else ss
  }

  function Held<T>(ss: SenderState<T>, now: int): seq<Applied<T>> {
    if Expired(ss, now) then [Applied(ss.pending.value.event, ss.pending.value.seq_)] else []
  }

  predicate ValidState<T>(s: State<T>) {
    && (forall i :: 0 <= i < |s.order| ==> s.order[i] in s.bySender)
    && (forall k :: k in s.bySender ==> k in s.order)
    && (forall i, j :: 0 <= i < j < |s.order| ==> s.order[i] != s.order[j])
  }

  function TickState<T>(s: State<T>, now: int): State<T> {
    s.(bySender := map k | k in s.bySender :: Ticked(s.bySender[k], now))
  }

  /** The expired events in iteration order. */
  function TickList<T>(s: State<T>, now: int, n: nat): seq<(Sender, Applied<T>)>
    requires n <= |s.order| && forall i :: 0 <= i < |s.order| ==> s.order[i] in s.bySender
  {
    if n == 0 then []
    else
      var held := Held(s.bySender[s.order[n - 1]], now);
      TickList(s, now, n - 1) + if held == [] then [] else [(s.order[n - 1], held[0])]
  }

  /** The state when the first `n` senders have been ticked. */
  function TickSome<T>(s: State<T>, now: int, n: nat): State<T>
    requires n <= |s.order|
  {
    s.(bySender := map k | k in s.bySender :: if k in s.order[..n] then Ticked(s.bySender[k], now) else s.bySender[k])
  }

  lemma TickNext<T>(s: State<T>, now: int, i: nat)
    requires ValidState(s) && i < |s.order|
    ensures var sender := s.order[i];
            && sender in TickSome(s, now, i).bySender && TickSome(s, now, i).bySender[sender] == s.bySender[sender]
            && TickSome(s, now, i + 1) ==
               TickSome(s, now, i).(bySender := TickSome(s, now, i).bySender[sender := Ticked(s.bySender[sender], now)])
  {
    hide Ticked;
    assert s.order[..i + 1] == s.order[..i] + [s.order[i]];
    assert s.order[i] !in s.order[..i];
    assert TickSome(s, now, i + 1).bySender ==
           TickSome(s, now, i).bySender[s.order[i] := Ticked(s.bySender[s.order[i]], now)];
  }

  lemma TickEnds<T>(s: State<T>, now: int)
    requires ValidState(s)
    ensures TickSome(s, now, 0) == s && TickSome(s, now, |s.order|) == TickState(s, now)
  {
    hide Ticked;
    assert TickSome(s, now, 0).bySender == s.bySender;
    assert s.order[..|s.order|] == s.order;
    assert TickSome(s, now, |s.order|).bySender == TickState(s, now).bySender;
  }

  /** `tickDedup`: one pass over the senders, in a copy. */
  method TickDedup<T>(s: State<T>, now: int) returns (expired: seq<(Sender, Applied<T>)>, next: State<T>)
    requires ValidState(s)
    ensures expired == TickList(s, now, |s.order|)
    ensures next == TickState(s, now)
  {
    hide Ticked, Held, TickList, TickSome, TickState;
    next := s;
    expired := [];
    TickEnds(s, now);
    assert TickList(s, now, 0) == [] by {
      TickListEmpty(s, now);
    }
    var i := 0;
    while i < |s.order|
      invariant i <= |s.order| && next == TickSome(s, now, i) && expired == TickList(s, now, i)
    {
      var sender := s.order[i];
      TickNext(s, now, i);
      TickShape(s, now, i);
      var ss := next.bySender[sender];
      if ss.pending.Some? && now - ss.pending.value.parkedAtMs >= BUFFER_TIMEOUT_MS {
        var held := ss.pending.value;
        next := next.(bySender := next.bySender[sender := SenderState(held.seq_, None)]);
        expired := expired + [(sender, Applied(held.event, held.seq_))];
      } else {
        assert next.bySender[sender := ss] == next.bySender;
        assert expired + [] == expired;
      }
      i := i + 1;
    }
  }

  lemma TickListEmpty<T>(s: State<T>, now: int)
    requires ValidState(s)
    ensures TickList(s, now, 0) == []
  {}

  lemma TickShape<T>(s: State<T>, now: int, i: nat)
    requires ValidState(s) && i < |s.order|
    ensures var ss := s.bySender[s.order[i]];
            && Ticked(ss, now) == (if Expired(ss, now) then SenderState(ss.pending.value.seq_, None) else ss)
            && TickList(s, now, i + 1) ==
                 TickList(s, now, i)
                 + (if Expired(ss, now) then [(s.order[i], Applied(ss.pending.value.event, ss.pending.value.seq_))] else [])
  {}

  // ----- runs -----

  datatype Op<+T> = Receive(event: Playback<T>, now: int) | Tick(now: int)

  function Outputs<T>(d: Decision<T>): seq<Applied<T>> {
    match d
    case ApplyIt(e, n, drain) => if drain.Some? then [Applied(e, n), Applied(drain.value, n + 1)] else [Applied(e, n)]
    case _ => []
  }

  /** One sender alone. */
  function StepOne<T>(ss: Option<SenderState<T>>, op: Op<T>): (Option<SenderState<T>>, seq<Applied<T>>) {
    match op
    case Receive(e, now) => var (d, ss') := Decide(ss, e, now); (ss', Outputs(d))
    case Tick(now) => if ss.None? then (None, []) else (Some(Ticked(ss.value, now)), Held(ss.value, now))
  }

  function RunOne<T>(ops: seq<Op<T>>): (Option<SenderState<T>>, seq<Applied<T>>) {
    if ops == [] then (None, [])
    else
      var (ss, out) := RunOne(ops[..|ops| - 1]);
      var (ss', more) := StepOne(ss, ops[|ops| - 1]);
      (ss', out + more)
  }

  /** All senders, with the outputs of sender `who`. */
  function Step<T>(s: State<T>, op: Op<T>): State<T> {
    match op
    case Receive(e, now) => EvaluateDedup(s, e, now).1
    case Tick(now) => TickState(s, now)
  }

  function OutputsFor<T>(s: State<T>, op: Op<T>, who: Sender): seq<Applied<T>>
    requires ValidState(s)
  {
    match op
    case Receive(e, now) => if e.sender == who then Outputs(EvaluateDedup(s, e, now).0) else []
    case Tick(now) => For(TickList(s, now, |s.order|), who)
  }

  function For<T>(list: seq<(Sender, Applied<T>)>, who: Sender): seq<Applied<T>> {
    if list == [] then []
    else For(list[..|list| - 1], who) + if list[|list| - 1].0 == who then [list[|list| - 1].1] else []
  }

  function RunAll<T>(ops: seq<Op<T>>): (s: State<T>)
    ensures ValidState(s)
  {
    if ops == [] then State([], map[])
    else
      StepValid(RunAll(ops[..|ops| - 1]), ops[|ops| - 1]);
      Step(RunAll(ops[..|ops| - 1]), ops[|ops| - 1])
  }

  function RunOutputs<T>(ops: seq<Op<T>>, who: Sender): seq<Applied<T>> {
    if ops == [] then []
    else RunOutputs(ops[..|ops| - 1], who) + OutputsFor(RunAll(ops[..|ops| - 1]), ops[|ops| - 1], who)
  }

  /** The operations that concern `who`: its own events and every tick. */
  function OnlyFor<T>(ops: seq<Op<T>>, who: Sender): seq<Op<T>> {
    if ops == [] then []
    else
      var op := ops[|ops| - 1];
      OnlyFor(ops[..|ops| - 1], who) + if op.Tick? || op.event.sender == who then [op] else []
  }

  lemma StepValid<T>(s: State<T>, op: Op<T>)
    requires ValidState(s)
    ensures ValidState(Step(s, op))
  {
    if op.Receive? && op.event.sender !in s.bySender {
      var o := s.order + [op.event.sender];
      assert o[|s.order|] == op.event.sender;
      forall k | k in s.bySender
        ensures k in o
      {
        assert k in s.order;
      }
    }
  }

  lemma ForSnoc<T>(list: seq<(Sender, Applied<T>)>, more: seq<(Sender, Applied<T>)>, who: Sender)
    requires |more| <= 1
    ensures For(list + more, who) == For(list, who) + if more != [] && more[0].0 == who then [more[0].1] else []
  {
    if more == [] {
      assert list + more == list;
    } else {
      assert (list + more)[..|list|] == list;
    }
  }

  lemma PrefixSnoc<T>(s: State<T>, n: nat)
    requires ValidState(s) && 0 < n <= |s.order|
    ensures forall k :: k in s.order[..n] <==> k in s.order[..n - 1] || k == s.order[n - 1]
    ensures s.order[n - 1] !in s.order[..n - 1]
  {
    assert s.order[..n] == s.order[..n - 1] + [s.order[n - 1]];
  }

  lemma {:induction false} TickFor<T>(s: State<T>, now: int, n: nat, who: Sender)
    requires ValidState(s) && n <= |s.order|
    ensures For(TickList(s, now, n), who) == if who in s.order[..n] then Held(s.bySender[who], now) else []
  {
    hide Ticked, For, Expired, ValidState, TickList;
    if n == 0 {
      TickListEmpty(s, now);
      ForNone<T>(who);
    } else {
      TickFor(s, now, n - 1, who);
      OrderKnown(s);
      TickShape(s, now, n - 1);
      var ss := s.bySender[s.order[n - 1]];
      ExpiredPending(ss, now);
      var more := if Expired(ss, now) then [(s.order[n - 1], Applied(ss.pending.value.event, ss.pending.value.seq_))] else [];
      ForSnoc(TickList(s, now, n - 1), more, who);
      PrefixSnoc(s, n);
    }
  }

  lemma ExpiredPending<T>(ss: SenderState<T>, now: int)
    ensures Expired(ss, now) ==> ss.pending.Some?
  {}

  lemma OrderKnown<T>(s: State<T>)
    requires ValidState(s)
    ensures forall i :: 0 <= i < |s.order| ==> s.order[i] in s.bySender
  {}

  lemma ForNone<T>(who: Sender)
    ensures For<T>([], who) == []
  {}

  /** One step of all senders, seen by `who`. */
  lemma StepLocal<T>(s: State<T>, op: Op<T>, who: Sender)
    requires ValidState(s)
    ensures var mine := op.Tick? || op.event.sender == who;
            && Get(Step(s, op), who) == (if mine then StepOne(Get(s, who), op).0 else Get(s, who))
            && OutputsFor(s, op, who) == (if mine then StepOne(Get(s, who), op).1 else [])
  {
    hide Decide, Ticked, Held, TickList, For, Outputs;
    match op
    case Receive(e, now) =>
      DecideKnown(Get(s, e.sender), e, now);
    case Tick(now) =>
      TickFor(s, now, |s.order|, who);
      assert s.order[..|s.order|] == s.order;
  }

  lemma DecideKnown<T>(ss: Option<SenderState<T>>, e: Playback<T>, now: int)
    ensures ss.Some? ==> Decide(ss, e, now).1.Some?
  {}

  /** Sender independence: in any merged run, one sender's state and what is
      applied of it are those of its own events and the ticks alone. */
  lemma {:induction false} SenderIndependence<T>(ops: seq<Op<T>>, who: Sender)
    ensures Get(RunAll(ops), who) == RunOne(OnlyFor(ops, who)).0
    ensures RunOutputs(ops, who) == RunOne(OnlyFor(ops, who)).1
  {
    hide StepOne, Step, OutputsFor, ValidState;
    if ops != [] {
      var before, op := ops[..|ops| - 1], ops[|ops| - 1];
      SenderIndependence(before, who);
      StepLocal(RunAll(before), op, who);
      RunOneSnoc(OnlyFor(before, who), op);
      assert OnlyFor(before, who) + [] == OnlyFor(before, who);
      assert RunOutputs(before, who) + [] == RunOutputs(before, who);
    }
  }

  lemma RunOneSnoc<T>(ops: seq<Op<T>>, op: Op<T>)
    ensures RunOne(ops + [op]) ==
            (StepOne(RunOne(ops).0, op).0, RunOne(ops).1 + StepOne(RunOne(ops).0, op).1)
  {
    assert (ops + [op])[..|ops|] == ops;
  }

  /** Events of different senders commute, up to the map's iteration order. */
  lemma SendersCommute<T>(s: State<T>, a: Playback<T>, b: Playback<T>, nowA: int, nowB: int)
    requires a.sender != b.sender
    ensures var (da, s1) := EvaluateDedup(s, a, nowA);
            var (db, s2) := EvaluateDedup(s1, b, nowB);
            var (db', t1) := EvaluateDedup(s, b, nowB);
            var (da', t2) := EvaluateDedup(t1, a, nowA);
            da == da' && db == db' && s2.bySender == t2.bySender
  {
    hide Decide;
    var ra := Decide(Get(s, a.sender), a, nowA).1;
    var rb := Decide(Get(s, b.sender), b, nowB).1;
    if ra.Some? && rb.Some? {
      assert s.bySender[a.sender := ra.value][b.sender := rb.value] == s.bySender[b.sender := rb.value][a.sender := ra.value];
    }
  }

  /** A tick leaves nothing parked for 5 s or longer, and ticking again at the
      same time changes and yields nothing. */
  lemma TickIdempotent<T>(s: State<T>, now: int)
    requires ValidState(s)
    ensures var t := TickState(s, now);
            && ValidState(t) && TickState(t, now) == t
            && (forall k :: k in t.bySender ==> !Expired(t.bySender[k], now))
            && TickList(t, now, |t.order|) == []
  {
    var t := TickState(s, now);
    StepValid(s, Tick(now));
    NothingHeld(t, now, |t.order|);
    assert TickState(t, now).bySender == t.bySender;
  }

  lemma {:induction false} NothingHeld<T>(s: State<T>, now: int, n: nat)
    requires ValidState(s) && n <= |s.order| && forall k :: k in s.bySender ==> !Expired(s.bySender[k], now)
    ensures TickList(s, now, n) == []
  {
    hide Expired, ValidState;
    if n > 0 {
      NothingHeld(s, now, n - 1);
      NotHeld(s, now, n - 1);
    }
  }

  lemma NotHeld<T>(s: State<T>, now: int, i: nat)
    requires ValidState(s) && i < |s.order| && forall k :: k in s.bySender ==> !Expired(s.bySender[k], now)
    ensures s.order[i] in s.bySender && Held(s.bySender[s.order[i]], now) == []
  {
    hide Expired;
  }

  // ----- one sender: order and loss -----

  /** Numbers increase except where a 1 starts a new epoch. */
  ghost predicate EpochOrder<T>(out: seq<Applied<T>>) {
    && (forall i :: 0 <= i < |out| - 1 ==> out[i].seq_ < out[i + 1].seq_ || out[i + 1].seq_ == 1)
    && (forall i :: 0 <= i < |out| ==> out[i].seq_ >= 1)
  }

  lemma EpochSnoc<T>(out: seq<Applied<T>>, x: Applied<T>)
    requires EpochOrder(out) && x.seq_ >= 1
    requires out == [] || out[|out| - 1].seq_ < x.seq_ || x.seq_ == 1
    ensures EpochOrder(out + [x])
  {}

  /** `last` is the newest number applied in this epoch; a parked event is at
      least two ahead of it. */
  ghost predicate OneInv<T>(ss: Option<SenderState<T>>, out: seq<Applied<T>>) {
    && EpochOrder(out)
    && (ss.None? ==> out == [])
    && (ss.Some? ==>
          && ss.value.last >= 0
          && (ss.value.last == 0 <==> out == [])
          && (out != [] ==> out[|out| - 1].seq_ == ss.value.last)
          && (ss.value.pending.Some? ==> ss.value.pending.value.seq_ >= ss.value.last + 2))
  }

  /** The outputs of one step, appended to an ordered list. */
  ghost predicate Extends<T>(last: int, more: seq<Applied<T>>, last': int) {
    && |more| <= 2
    && (more == [] ==> last' == last)
    && (|more| >= 1 ==> more[0].seq_ > last || more[0].seq_ == 1)
    && (|more| == 2 ==> more[0].seq_ < more[1].seq_)
    && (more != [] ==> last' == more[|more| - 1].seq_)
    && forall i :: 0 <= i < |more| ==> more[i].seq_ >= 1
  }

  ghost function Last<T>(ss: Option<SenderState<T>>): int {
    if ss.Some? then ss.value.last else 0
  }

  ghost predicate Sane<T>(ss: Option<SenderState<T>>) {
    ss.Some? ==> ss.value.last >= 0 && (ss.value.pending.Some? ==> ss.value.pending.value.seq_ >= ss.value.last + 2)
  }

  lemma StepExtends<T>(ss: Option<SenderState<T>>, op: Op<T>)
    requires Sane(ss)
    ensures Sane(StepOne(ss, op).0) && Extends(Last(ss), StepOne(ss, op).1, Last(StepOne(ss, op).0))
    ensures ss.Some? ==> StepOne(ss, op).0.Some?
  {}

  lemma StepInOrder<T>(ss: Option<SenderState<T>>, out: seq<Applied<T>>, op: Op<T>)
    requires OneInv(ss, out)
    ensures OneInv(StepOne(ss, op).0, out + StepOne(ss, op).1)
  {
    hide EpochOrder, StepOne;
    StepExtends(ss, op);
    var more := StepOne(ss, op).1;
    if |more| == 0 {
      assert out + more == out;
    } else {
      EpochSnoc(out, more[0]);
      if |more| == 1 {
        assert out + more == out + [more[0]];
      } else {
        EpochSnoc(out + [more[0]], more[1]);
        assert out + more == out + [more[0]] + [more[1]];
      }
    }
  }

  ghost predicate Received<T>(ops: seq<Op<T>>, e: Playback<T>) {
    exists i :: 0 <= i < |ops| && ops[i].Receive? && ops[i].event == e
  }

  /** What is handed out, and what is parked, was received under its own number. */
  ghost predicate Genuine<T>(ops: seq<Op<T>>, ss: Option<SenderState<T>>, out: seq<Applied<T>>) {
    && (forall i :: 0 <= i < |out| ==> out[i].event.seq_ == out[i].seq_ && Received(ops, out[i].event))
    && (ss.Some? && ss.value.pending.Some? ==>
          var p := ss.value.pending.value;
          p.event.seq_ == p.seq_ && Received(ops, p.event))
  }

  lemma StepGenuine<T>(ops: seq<Op<T>>, ss: Option<SenderState<T>>, op: Op<T>)
    requires Genuine(ops, ss, [])
    ensures Genuine(ops + [op], StepOne(ss, op).0, StepOne(ss, op).1)
  {
    ReceivedLater(ops, op);
    assert (ops + [op])[|ops|] == op;
    assert op.Receive? ==> Received(ops + [op], op.event);
    hide Received;
  }

  /** In any run of one sender's events and ticks, the numbers applied strictly
      increase except where a 1 starts a new epoch, whatever is parked is at least
      two ahead of the last one applied, and every event handed out is one that was
      received under that number. */
  lemma {:induction false} AppliedInOrder<T>(ops: seq<Op<T>>)
    ensures OneInv(RunOne(ops).0, RunOne(ops).1)
    ensures Genuine(ops, RunOne(ops).0, RunOne(ops).1)
  {
    hide StepOne, OneInv, Received;
    if ops == [] {
      NothingApplied<T>();
    } else {
      var before, op := ops[..|ops| - 1], ops[|ops| - 1];
      AppliedInOrder(before);
      var (ss, out) := RunOne(before);
      StepInOrder(ss, out, op);
      StepGenuine(before, ss, op);
      assert before + [op] == ops;
      ReceivedLater(before, op);
    }
  }

  lemma ReceivedLater<T>(ops: seq<Op<T>>, op: Op<T>)
    ensures forall e :: Received(ops, e) ==> Received(ops + [op], e)
  {
    forall e | Received(ops, e)
      ensures Received(ops + [op], e)
    {
      var i :| 0 <= i < |ops| && ops[i].Receive? && ops[i].event == e;
      assert (ops + [op])[i] == ops[i];
    }
  }

  lemma NothingApplied<T>()
    ensures OneInv<T>(None, [])
  {}

  /** The step restarts the epoch, brings a newer event than the parked one, or
      applies the next number while a gap remains. */
  predicate Discards<T>(ss: SenderState<T>, op: Op<T>) {
    && ss.pending.Some? && op.Receive?
    && (|| (op.event.seq_ == 1 && ss.last > 1)
        || op.event.seq_ > ss.pending.value.seq_
        || (op.event.seq_ == ss.last + 1 && ss.pending.value.seq_ != ss.last + 2))
  }

  /** What can happen to a parked event in one step: it stays, it is applied, or
      it is discarded. */
  lemma ParkedFate<T>(ss: SenderState<T>, op: Op<T>)
    requires ss.pending.Some? && ss.pending.value.seq_ >= ss.last + 2 && ss.last >= 0
    ensures var p := ss.pending.value;
            var (ss', out) := StepOne(Some(ss), op);
            var stays := ss'.Some? && ss'.value.pending == Some(p);
            var applied := Applied(p.event, p.seq_) in out;
            (Discards(ss, op) <==> !stays && !applied) && !(stays && applied)
  {
    var p := ss.pending.value;
    var (ss', out) := StepOne(Some(ss), op);
    if op.Receive? && op.event.seq_ == ss.last + 1 && p.seq_ == ss.last + 2 {
      assert out[1] == Applied(p.event, p.seq_);
    }
    if op.Tick? && Expired(ss, op.now) {
      assert out[0] == Applied(p.event, p.seq_);
    }
  }

  /** A partial fill loses an event that is still ahead of the gap. */
  lemma PartialFillLoses()
    ensures var e := (n: int) => Playback("s", n, 0);
            RunOne([Receive(e(1), 0), Receive(e(4), 1), Receive(e(2), 2), Receive(e(3), 3), Tick(6000)]).1
            == [Applied(e(1), 1), Applied(e(2), 2), Applied(e(3), 3)]
  {
    var e := (n: int) => Playback("s", n, 0);
    var ops := [Receive(e(1), 0), Receive(e(4), 1), Receive(e(2), 2), Receive(e(3), 3), Tick(6000)];
    FeedIsRun([], ops);
    assert [] + ops == ops;
    var s1 := SenderState(1, None);
    var s2 := SenderState(1, Some(Parked(e(4), 1, 4)));
    assert StepOne(None, ops[0]) == (Some(s1), [Applied(e(1), 1)]);
    assert StepOne(Some(s1), ops[1]) == (Some(s2), []);
    assert StepOne(Some(s2), ops[2]) == (Some(SenderState(2, None)), [Applied(e(2), 2)]);
    assert StepOne(Some(SenderState(2, None)), ops[3]) == (Some(SenderState(3, None)), [Applied(e(3), 3)]);
    assert StepOne(Some(SenderState(3, None)), ops[4]) == (Some(SenderState(3, None)), []);
    hide StepOne;
    FeedCons(None, ops);
    FeedCons(Some(s1), ops[1..]);
    FeedCons(Some(s2), ops[2..]);
    FeedCons(Some(SenderState(2, None)), ops[3..]);
    FeedCons(Some(SenderState(3, None)), ops[4..]);
  }

  lemma FeedCons<T>(ss: Option<SenderState<T>>, ops: seq<Op<T>>)
    requires ops != []
    ensures Feed(ss, ops) == StepOne(ss, ops[0]).1 + Feed(StepOne(ss, ops[0]).0, ops[1..])
  {}

  /** From applied number `k` (with `k + 2` parked at `parkedAt`, if any), `ops` is
      the rest of 1..n disturbed only by disjoint adjacent swaps, repeats of the
      parked number and repeats of applied numbers above 1, with no tick late
      enough to expire the parked event. */
  ghost predicate Disturbed<T>(ops: seq<Op<T>>, k: nat, parkedAt: Option<int>, n: nat)
    decreases |ops|
  {
    if ops == [] then k == n && parkedAt.None?
    else
      match ops[0]
      case Tick(now) =>
        (parkedAt.Some? ==> now - parkedAt.value < BUFFER_TIMEOUT_MS) && Disturbed(ops[1..], k, parkedAt, n)
      case Receive(e, now) =>
        if 2 <= e.seq_ <= k then Disturbed(ops[1..], k, parkedAt, n)
        else if e.seq_ == k + 1 then Disturbed(ops[1..], if parkedAt.Some? then k + 2 else k + 1, None, n)
        else e.seq_ == k + 2 && Disturbed(ops[1..], k, Some(if parkedAt.Some? then parkedAt.value else now), n)
  }

  function Feed<T>(ss: Option<SenderState<T>>, ops: seq<Op<T>>): seq<Applied<T>>
    decreases |ops|
  {
    if ops == [] then [] else StepOne(ss, ops[0]).1 + Feed(StepOne(ss, ops[0]).0, ops[1..])
  }

  ghost predicate At<T>(ss: Option<SenderState<T>>, k: nat, parkedAt: Option<int>) {
    match ss
    case None => k == 0 && parkedAt.None?
    case Some(s) =>
      && s.last == k
      && (match parkedAt
          case None => s.pending.None?
          case Some(t) => s.pending.Some? && s.pending.value.seq_ == k + 2 && s.pending.value.parkedAtMs == t)
  }

  /** The first event received under number `m`. */
  function First<T>(ops: seq<Op<T>>, m: int): Option<Playback<T>> {
    if ops == [] then None
    else if ops[0].Receive? && ops[0].event.seq_ == m then Some(ops[0].event)
    else First(ops[1..], m)
  }

  /** The event that number `m` stands for: the parked one, or the first to come. */
  ghost function Meant<T>(ss: Option<SenderState<T>>, ops: seq<Op<T>>, m: int): Option<Playback<T>> {
    if ss.Some? && ss.value.pending.Some? && ss.value.pending.value.seq_ == m then Some(ss.value.pending.value.event)
    else First(ops, m)
  }

  /** One operation of such a stream: where it leaves the receiver, what it hands
      out, and that the later numbers still stand for the same events. */
  lemma DisturbedStep<T>(ss: Option<SenderState<T>>, ops: seq<Op<T>>, k: nat, parkedAt: Option<int>, n: nat)
      returns (k': nat, parkedAt': Option<int>)
    requires At(ss, k, parkedAt) && Disturbed(ops, k, parkedAt, n) && ops != []
    ensures var (ss', out) := StepOne(ss, ops[0]);
            && At(ss', k', parkedAt') && Disturbed(ops[1..], k', parkedAt', n)
            && |out| == k' - k
            && (forall i :: 0 <= i < |out| ==>
                  out[i].seq_ == k + 1 + i && Some(out[i].event) == Meant(ss, ops, k + 1 + i))
            && (forall m :: m > k' ==> Meant(ss', ops[1..], m) == Meant(ss, ops, m))
  {
    k', parkedAt' := k, parkedAt;
    if ops[0].Receive? {
      var n0 := ops[0].event.seq_;
      if n0 == k + 1 {
        k', parkedAt' := if parkedAt.Some? then k + 2 else k + 1, None;
      } else if n0 == k + 2 {
        parkedAt' := Some(if parkedAt.Some? then parkedAt.value else ops[0].now);
      }
    }
  }

  /** Such a stream comes out as exactly k+1 .. n, in order, each number with the
      event that came under it first. */
  lemma {:induction false} DisturbedStream<T>(ss: Option<SenderState<T>>, ops: seq<Op<T>>, k: nat, parkedAt: Option<int>, n: nat)
    requires At(ss, k, parkedAt) && Disturbed(ops, k, parkedAt, n)
    ensures k <= n && |Feed(ss, ops)| == n - k
    ensures forall i :: 0 <= i < |Feed(ss, ops)| ==> Feed(ss, ops)[i].seq_ == k + 1 + i
    ensures forall i :: 0 <= i < |Feed(ss, ops)| ==> Some(Feed(ss, ops)[i].event) == Meant(ss, ops, k + 1 + i)
    decreases |ops|
  {
    if ops != [] {
      var k', parkedAt' := DisturbedStep(ss, ops, k, parkedAt, n);
      hide StepOne, At, Disturbed, Meant;
      var (ss', out) := StepOne(ss, ops[0]);
      DisturbedStream(ss', ops[1..], k', parkedAt', n);
      var rest := Feed(ss', ops[1..]);
      forall i | |out| <= i < |out + rest|
        ensures Some((out + rest)[i].event) == Meant(ss, ops, k + 1 + i)
      {
        assert (out + rest)[i] == rest[i - |out|];
      }
    }
  }

  lemma {:induction false} FeedIsRun<T>(ops: seq<Op<T>>, more: seq<Op<T>>)
    ensures RunOne(ops + more).1 == RunOne(ops).1 + Feed(RunOne(ops).0, more)
    decreases |more|
  {
    hide StepOne;
    if more == [] {
      assert ops + more == ops;
    } else {
      RunOneSnoc(ops, more[0]);
      FeedIsRun(ops + [more[0]], more[1..]);
      assert ops + more == ops + [more[0]] + more[1..];
    }
  }

  /** Every stream 1..n disturbed in these ways is applied as exactly 1..n: event by
      event, the first one received under each number. */
  lemma StreamRestored<T>(ops: seq<Op<T>>, n: nat)
    requires Disturbed(ops, 0, None, n)
    ensures |RunOne(ops).1| == n
    ensures forall i :: 0 <= i < n ==> RunOne(ops).1[i].seq_ == RunOne(ops).1[i].event.seq_ == i + 1
    ensures forall i :: 0 <= i < n ==> Some(RunOne(ops).1[i].event) == First(ops, i + 1)
  {
    hide Disturbed, StepOne, OneInv, Received;
    DisturbedStream<T>(None, ops, 0, None, n);
    hide Feed, At;
    AppliedInOrder(ops);
    FeedIsRun([], ops);
    assert [] + ops == ops;
  }
}
