/** Exactly which event is applied, parked or dropped, in terms of what was handed out
    and received before (apps/client/src/drift/dedup.ts:153-343). */
module DedupDecisions {
  import opened Wrappers
  import opened Dedup

  /** The number of the parked event, if there is one. */
  function Slot<T>(ss: Option<SenderState<T>>): Option<Parked<T>> {
    match ss case None => None case Some(s) => s.pending
  }

  /** The sender has started again from 1. */
  predicate Restarts(last: int, n: int) {
    n == 1 && last > 1
  }

  /** Each decision exactly when, an unseen sender counting as one with nothing applied;
      and the state it leaves. */
  lemma DecideExactly<T>(ss: Option<SenderState<T>>, e: Playback<T>, now: int)
    requires Sane(ss)
    ensures var last, slot, n := Last(ss), Slot(ss), e.seq_;
            var (d, ss') := Decide(ss, e, now);
            && (d == Drop(Duplicate) <==> n <= last && !Restarts(last, n))
            && (d == Drop(OutOfOrder) <==> n >= last + 2 && slot.Some? && slot.value.seq_ >= n)
            && (d == Buffer <==> n >= last + 2 && (slot.Some? ==> slot.value.seq_ < n))
            && (d == ApplyIt(e, n, None) <==>
                  Restarts(last, n) || (n == last + 1 && (slot.Some? ==> slot.value.seq_ != n + 1)))
            && (slot.Some? ==> (d == ApplyIt(e, n, Some(slot.value.event)) <==> n == last + 1 && slot.value.seq_ == n + 1))
            && (d.Drop? ==> ss' == ss)
            && (d.Buffer? ==> ss' == Some(SenderState(last, Some(Parked(e, now, n)))))
            && (d.ApplyIt? ==> ss' == Some(SenderState(if d.drain.Some? then n + 1 else n, None)))
  {}

  // ----- the same over runs, from the history alone -----

  /** The newest number handed out. */
  function Newest<T>(out: seq<Applied<T>>): int {
    if out == [] then 0 else out[|out| - 1].seq_
  }

  /** What an operation hands out after `out`, with `waits` the event that waits. */
  function HandsOut<T>(out: seq<Applied<T>>, waits: Option<Parked<T>>, op: Op<T>): seq<Applied<T>> {
    match op
    case Tick(now) =>
      if waits.Some? && now >= waits.value.parkedAtMs + 5000 then [Applied(waits.value.event, waits.value.seq_)] else []
    case Receive(e, now) =>
      if e.seq_ == 1 && Newest(out) > 1 then [Applied(e, 1)]
      else if e.seq_ != Newest(out) + 1 then []
      else [Applied(e, e.seq_)]
           + if waits.Some? && waits.value.seq_ == e.seq_ + 1 then [Applied(waits.value.event, waits.value.seq_)] else []
  }

  /** The event that waits: of those received since something was handed out last that are
      ahead of a gap, the first one of the largest number. */
  function Waits<T>(ops: seq<Op<T>>): Option<Parked<T>> {
    if ops == [] then None
    else
      var before, op := ops[..|ops| - 1], ops[|ops| - 1];
      var waits := Waits(before);
      if HandsOut(RunOne(before).1, waits, op) != [] then None
      else if op.Receive? && op.event.seq_ > Newest(RunOne(before).1) + 1 && (waits.None? || waits.value.seq_ < op.event.seq_)
      then Some(Parked(op.event, op.now, op.event.seq_))
      else waits
  }

  lemma StepIs<T>(ss: Option<SenderState<T>>, out: seq<Applied<T>>, op: Op<T>)
    requires Sane(ss) && Last(ss) == Newest(out)
    ensures var (ss', more) := StepOne(ss, op);
            && more == HandsOut(out, Slot(ss), op)
            && Slot(ss') == (if more != [] then None
                             else if op.Receive? && op.event.seq_ > Newest(out) + 1
                                     && (Slot(ss).None? || Slot(ss).value.seq_ < op.event.seq_)
                             then Some(Parked(op.event, op.now, op.event.seq_)) else Slot(ss))
            && Last(ss') == Newest(out + more)
  {
    if op.Receive? {
      DecideExactly(ss, op.event, op.now);
    }
    assert out + [] == out;
  }

  /** In every run the slot holds the event that waits, and what each operation hands out
      follows from what was received and handed out before. */
  lemma {:induction false} HistoryDecides<T>(ops: seq<Op<T>>)
    ensures Sane(RunOne(ops).0) && Slot(RunOne(ops).0) == Waits(ops) && Last(RunOne(ops).0) == Newest(RunOne(ops).1)
    ensures ops != [] ==>
              var before := ops[..|ops| - 1];
              RunOne(ops).1 == RunOne(before).1 + HandsOut(RunOne(before).1, Waits(before), ops[|ops| - 1])
  {
    hide StepOne, HandsOut, Newest;
    if ops == [] {
      NothingYet<T>();
    } else {
      var before, op := ops[..|ops| - 1], ops[|ops| - 1];
      HistoryDecides(before);
      StepExtends(RunOne(before).0, op);
      StepIs(RunOne(before).0, RunOne(before).1, op);
    }
  }

  lemma NothingYet<T>()
    ensures Newest<T>([]) == 0
  {}

  // ----- a gap that nothing fills -----

  ghost predicate TicksBefore<T>(ops: seq<Op<T>>, t: int) {
    forall i :: 0 <= i < |ops| ==> ops[i].Tick? && ops[i].now < t
  }

  lemma TickWaits<T>(out: seq<Applied<T>>, p: Parked<T>, now: int)
    requires now < p.parkedAtMs + 5000
    ensures HandsOut(out, Some(p), Tick(now)) == []
  {}

  lemma {:induction false} StillWaits<T>(ops: seq<Op<T>>, quiet: seq<Op<T>>, p: Parked<T>)
    requires Waits(ops) == Some(p) && TicksBefore(quiet, p.parkedAtMs + 5000)
    ensures RunOne(ops + quiet).1 == RunOne(ops).1 && Waits(ops + quiet) == Some(p)
  {
    hide RunOne, HandsOut;
    if quiet == [] {
      assert ops + quiet == ops;
    } else {
      var n := |quiet| - 1;
      StillWaits(ops, quiet[..n], p);
      var before, all := ops + quiet[..n], ops + quiet;
      assert all[..|all| - 1] == before && all[|all| - 1] == quiet[n];
      HistoryDecides(all);
      TickWaits(RunOne(before).1, p, quiet[n].now);
      assert RunOne(before).1 + [] == RunOne(before).1;
    }
  }

  /** An event that is ahead of a gap, and of what waits already, is handed out by the first
      tick 5 s later if nothing else comes. */
  lemma AwaitedIsHandedOut<T>(ops: seq<Op<T>>, e: Playback<T>, t: int, quiet: seq<Op<T>>, now: int)
    requires e.seq_ >= Newest(RunOne(ops).1) + 2 && (Waits(ops).Some? ==> Waits(ops).value.seq_ < e.seq_)
    requires TicksBefore(quiet, t + 5000) && now >= t + 5000
    ensures RunOne(ops + [Receive(e, t)] + quiet).1 == RunOne(ops).1
    ensures RunOne(ops + [Receive(e, t)] + quiet + [Tick(now)]).1 == RunOne(ops).1 + [Applied(e, e.seq_)]
  {
    hide RunOne;
    var parked := ops + [Receive(e, t)];
    assert parked[..|ops|] == ops;
    HistoryDecides(ops);
    HistoryDecides(parked);
    assert RunOne(ops).1 + [] == RunOne(ops).1;
    NewestAtLeast(ops);
    StillWaits(parked, quiet, Parked(e, t, e.seq_));
    var all := parked + quiet + [Tick(now)];
    assert all[..|all| - 1] == parked + quiet;
    HistoryDecides(all);
  }

  lemma NewestAtLeast<T>(ops: seq<Op<T>>)
    ensures Newest(RunOne(ops).1) >= 0
  {
    HistoryDecides(ops);
  }

  lemma {:induction false} TicksOnly<T>(ops: seq<Op<T>>, who: Sender)
    requires forall i :: 0 <= i < |ops| && ops[i].Receive? ==> ops[i].event.sender != who
    ensures forall i :: 0 <= i < |OnlyFor(ops, who)| ==> OnlyFor(ops, who)[i].Tick? && OnlyFor(ops, who)[i] in ops
  {
    if ops != [] {
      TicksOnly(ops[..|ops| - 1], who);
      assert ops == ops[..|ops| - 1] + [ops[|ops| - 1]];
    }
  }

  lemma {:induction false} TicksHandNothing<T>(ops: seq<Op<T>>)
    requires forall i :: 0 <= i < |ops| ==> ops[i].Tick?
    ensures RunOne(ops) == (None, []) && Waits(ops) == None
  {
    if ops != [] {
      TicksHandNothing(ops[..|ops| - 1]);
      assert RunOne(ops[..|ops| - 1]).1 + [] == [];
    }
  }

  lemma {:induction false} OnlyForAppend<T>(a: seq<Op<T>>, b: seq<Op<T>>, who: Sender)
    ensures OnlyFor(a + b, who) == OnlyFor(a, who) + OnlyFor(b, who)
  {
    if b == [] {
      assert a + b == a;
    } else {
      OnlyForAppend(a, b[..|b| - 1], who);
      assert (a + b)[..|a + b| - 1] == a + b[..|b| - 1];
    }
  }

  lemma OnlyForOne<T>(op: Op<T>, who: Sender)
    requires op.Tick? || op.event.sender == who
    ensures OnlyFor([op], who) == [op]
  {
    assert [op][..0] == [];
  }

  /** A viewer who joins late and first sees number 2 or later of a sender: nothing is
      handed out until the first tick 5 s after, and then exactly that event, whatever the
      other senders do. */
  lemma LateJoinerFollows<T>(before: seq<Op<T>>, e: Playback<T>, t: int, after: seq<Op<T>>, now: int)
    requires e.seq_ >= 2 && now >= t + 5000
    requires forall i :: 0 <= i < |before| && before[i].Receive? ==> before[i].event.sender != e.sender
    requires forall i :: 0 <= i < |after| && after[i].Receive? ==> after[i].event.sender != e.sender
    requires forall i :: 0 <= i < |after| && after[i].Tick? ==> after[i].now < t + 5000
    ensures RunOutputs(before + [Receive(e, t)] + after, e.sender) == []
    ensures RunOutputs(before + [Receive(e, t)] + after + [Tick(now)], e.sender) == [Applied(e, e.seq_)]
  {
    hide RunOutputs, RunOne, OnlyFor, RunAll, Waits, Newest;
    var who, ops := e.sender, before + [Receive(e, t)] + after;
    var a, b := OnlyFor(before, who), OnlyFor(after, who);
    TicksOnly(before, who);
    TicksOnly(after, who);
    TicksHandNothing(a);
    NothingYet<T>();
    AwaitedIsHandedOut(a, e, t, b, now);
    OnlyForAppend(before, [Receive(e, t)], who);
    OnlyForAppend(before + [Receive(e, t)], after, who);
    OnlyForAppend(ops, [Tick(now)], who);
    OnlyForOne(Receive(e, t), who);
    OnlyForOne<T>(Tick(now), who);
    SenderIndependence(ops, who);
    SenderIndependence(ops + [Tick(now)], who);
  }

  // ----- all senders -----

  /** A tick hands out exactly the events that have waited for 5 s, one per sender, in the
      order in which the senders were first met. */
  lemma {:induction false} TickInOrder<T>(s: State<T>, now: int, n: nat) returns (ks: seq<nat>)
    requires ValidState(s) && n <= |s.order|
    ensures |ks| == |TickList(s, now, n)| && forall i, j :: 0 <= i < j < |ks| ==> ks[i] < ks[j]
    ensures forall i :: 0 <= i < |ks| ==>
              && ks[i] < n && s.bySender[s.order[ks[i]]].pending.Some?
              && var p := s.bySender[s.order[ks[i]]].pending.value;
                 now >= p.parkedAtMs + 5000 && TickList(s, now, n)[i] == (s.order[ks[i]], Applied(p.event, p.seq_))
    ensures forall k :: 0 <= k < n && k !in ks ==>
              var slot := s.bySender[s.order[k]].pending; slot.None? || now < slot.value.parkedAtMs + 5000
  {
    hide TickList, ValidState;
    OrderKnown(s);
    ks := [];
    if n == 0 {
      TickListEmpty(s, now);
    } else {
      ks := TickInOrder(s, now, n - 1);
      TickShape(s, now, n - 1);
      if Expired(s.bySender[s.order[n - 1]], now) {
        ks := ks + [n - 1];
      }
    }
  }

  /** Senders are kept in the order in which they were first met. */
  lemma SendersInOrder<T>(s: State<T>, op: Op<T>)
    ensures op.Tick? ==> Step(s, op).order == s.order
    ensures op.Receive? ==>
              Step(s, op).order == if op.event.sender in s.bySender || op.event.seq_ <= 0 then s.order else s.order + [op.event.sender]
  {}
}
