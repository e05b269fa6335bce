/** How long a gap stays open (apps/client/src/drift/dedup.ts:264-343). Replacing the
    parked event restarts its 5 s timer (lines 293-296), so a gap can outlive any
    number of timeouts. */
module DedupGaps {
  import opened Wrappers
  import opened Dedup

  predicate Occupied<T>(ss: Option<SenderState<T>>) {
    ss.Some? && ss.value.pending.Some?
  }

  /** Operation `k` parks its event. */
  predicate Parks<T>(ops: seq<Op<T>>, k: nat)
    requires k < |ops|
  {
    ops[k].Receive? && Decide(RunOne(ops[..k]).0, ops[k].event, ops[k].now).0.Buffer?
  }

  /** A gap opens: operation `i` parks its event in the empty slot. */
  predicate Opens<T>(ops: seq<Op<T>>, i: nat)
    requires i < |ops|
  {
    Parks(ops, i) && !Occupied(RunOne(ops[..i]).0)
  }

  /** The slot has been occupied ever since operation `i`. */
  ghost predicate Open<T>(ops: seq<Op<T>>, i: nat) {
    forall k :: i < k <= |ops| ==> Occupied(RunOne(ops[..k]).0)
  }

  /** Nothing has been handed out since operation `i`. */
  ghost predicate Silent<T>(ops: seq<Op<T>>, i: nat)
    requires i < |ops|
  {
    RunOne(ops).1 == RunOne(ops[..i + 1]).1
  }

  /** When the event parked last arrived, from operation `i` on. */
  function LatestParked<T>(ops: seq<Op<T>>, i: nat): int
    requires i < |ops|
  {
    var n := |ops| - 1;
    if n == i || Parks(ops, n) then ops[n].now else LatestParked(ops[..n], i)
  }

  lemma StepSlot<T>(ss: Option<SenderState<T>>, op: Op<T>)
    requires Occupied(ss)
    ensures var (ss', out) := StepOne(ss, op);
            && (Occupied(ss') <==> out == [])
            && (Occupied(ss') && !(op.Receive? && Decide(ss, op.event, op.now).0.Buffer?) ==> ss' == ss)
  {}

  lemma ParkedSlot<T>(ss: Option<SenderState<T>>, op: Op<T>)
    requires op.Receive? && Decide(ss, op.event, op.now).0.Buffer?
    ensures var (ss', out) := StepOne(ss, op);
            Occupied(ss') && ss'.value.pending.value.parkedAtMs == op.now && out == []
  {}

  lemma Prefix<T>(ops: seq<Op<T>>, n: nat, i: nat)
    requires i < n <= |ops|
    ensures Parks(ops[..n], i) <==> Parks(ops, i)
    ensures ops[..n][..i] == ops[..i] && ops[..n][..i + 1] == ops[..i + 1]
    ensures Open(ops, i) ==> Open(ops[..n], i)
  {
    hide RunOne, Decide, Occupied;
    assert ops[..n][..i] == ops[..i];
    assert forall k :: 0 <= k <= n ==> ops[..n][..k] == ops[..k];
  }

  /** A slot that is open since `i` holds the event parked last. */
  lemma {:induction false} OpenSlot<T>(ops: seq<Op<T>>, i: nat)
    requires i < |ops| && Parks(ops, i) && Open(ops, i)
    ensures Occupied(RunOne(ops).0) && RunOne(ops).0.value.pending.value.parkedAtMs == LatestParked(ops, i)
  {
    hide StepOne, Decide;
    var n := |ops| - 1;
    assert ops[..|ops|] == ops;
    if Parks(ops, n) {
      ParkedSlot(RunOne(ops[..n]).0, ops[n]);
    } else {
      Prefix(ops, n, i);
      OpenSlot(ops[..n], i);
      StepSlot(RunOne(ops[..n]).0, ops[n]);
    }
  }

  /** The slot stays occupied exactly while nothing is handed out. */
  lemma {:induction false} OpenIsSilent<T>(ops: seq<Op<T>>, i: nat)
    requires i < |ops| && Parks(ops, i)
    ensures Open(ops, i) <==> Silent(ops, i)
    ensures |RunOne(ops[..i + 1]).1| <= |RunOne(ops).1|
  {
    hide StepOne, Decide, Occupied;
    var n := |ops| - 1;
    assert ops[..|ops|] == ops;
    if n == i {
      assert ops[..i + 1] == ops;
      ParkedSlot(RunOne(ops[..n]).0, ops[n]);
    } else {
      Prefix(ops, n, i);
      OpenIsSilent(ops[..n], i);
      assert Open(ops, i) <==> Open(ops[..n], i) && Occupied(RunOne(ops).0) by {
        OpenSnoc(ops, i);
      }
      var out, more := RunOne(ops[..n]).1, StepOne(RunOne(ops[..n]).0, ops[n]).1;
      assert RunOne(ops).1 == out + more;
      if Open(ops[..n], i) {
        assert ops[..n][..n] == ops[..n];
        StepSlot(RunOne(ops[..n]).0, ops[n]);
        assert RunOne(ops).0 == StepOne(RunOne(ops[..n]).0, ops[n]).0;
      }
    }
  }

  lemma OpenSnoc<T>(ops: seq<Op<T>>, i: nat)
    requires i < |ops| - 1
    ensures Open(ops, i) <==> Open(ops[..|ops| - 1], i) && Occupied(RunOne(ops).0)
  {
    hide RunOne, Occupied;
    var n := |ops| - 1;
    assert ops[..|ops|] == ops;
    forall k | i < k <= n
      ensures ops[..n][..k] == ops[..k]
    {}
    if Open(ops[..n], i) && Occupied(RunOne(ops).0) {
      forall k | i < k <= |ops|
        ensures Occupied(RunOne(ops[..k]).0)
      {
        if k <= n {
          assert Occupied(RunOne(ops[..n][..k]).0);
        }
      }
    }
    if Open(ops, i) {
      forall k | i < k <= n
        ensures Occupied(RunOne(ops[..n][..k]).0)
      {
        assert Occupied(RunOne(ops[..k]).0);
      }
    }
  }

  /** A gap is still open after a tick exactly if nothing has been handed out since
      it opened and the event parked last arrived less than 5 s before the tick. */
  lemma GapEnds<T>(ops: seq<Op<T>>, i: nat, now: int)
    requires i < |ops| && Parks(ops, i)
    ensures Open(ops + [Tick(now)], i) <==> Silent(ops, i) && LatestParked(ops, i) > now - BUFFER_TIMEOUT_MS
  {
    OpenIsSilent(ops, i);
    var all := ops + [Tick(now)];
    assert all[..|ops|] == ops;
    OpenSnoc(all, i);
    if Open(ops, i) {
      OpenSlot(ops, i);
    }
  }

  lemma {:induction false} LatestIs<T>(ops: seq<Op<T>>, i: nat) returns (k: nat)
    requires i < |ops|
    ensures i <= k < |ops| && LatestParked(ops, i) == ops[k].now && (k == i || Parks(ops, k))
  {
    var n := |ops| - 1;
    if n == i || Parks(ops, n) {
      k := n;
    } else {
      k := LatestIs(ops[..n], i);
      if k != i {
        Prefix(ops, n, k);
      }
    }
  }

  /** A gap in which nothing is parked again ends at the first tick 5 s later. */
  lemma UndisturbedGapEnds<T>(ops: seq<Op<T>>, i: nat, now: int)
    requires i < |ops| && Parks(ops, i) && forall k :: i < k < |ops| ==> !Parks(ops, k)
    ensures now >= ops[i].now + BUFFER_TIMEOUT_MS ==> !Open(ops + [Tick(now)], i)
  {
    hide Parks, Open, Silent, LatestParked;
    GapEnds(ops, i, now);
    var k := LatestIs(ops, i);
  }

  // ----- "every gap ends in 5 s", over whole runs -----

  /** Operation `j` is a tick 5 s or more after the gap of operation `i` opened. */
  ghost predicate Due<T>(ops: seq<Op<T>>, i: nat, j: nat) {
    i < j < |ops| && Opens(ops, i) && ops[j].Tick? && ops[j].now >= ops[i].now + BUFFER_TIMEOUT_MS
  }

  ghost predicate EveryGapEnds<T>(ops: seq<Op<T>>) {
    forall i, j :: Due(ops, i, j) ==> !Open(ops[..j + 1], i)
  }

  /** Nothing was handed out between the two, and yet another event was parked less
      than 5 s before the tick. */
  ghost predicate ReplacedLate<T>(ops: seq<Op<T>>, i: nat, j: nat)
    requires i < j < |ops|
  {
    Silent(ops[..j], i) && exists k :: i < k < j && Parks(ops, k) && ops[k].now == LatestParked(ops[..j], i) > ops[j].now - BUFFER_TIMEOUT_MS
  }

  /** The property holds of a run exactly if no due tick finds its gap replaced late. */
  lemma EveryGapEndsExactlyWhen<T>(ops: seq<Op<T>>)
    ensures EveryGapEnds(ops) <==> forall i, j :: Due(ops, i, j) ==> !ReplacedLate(ops, i, j)
  {
    hide Parks, Open, Silent, LatestParked, Opens, RunOne;
    forall i, j | Due(ops, i, j)
      ensures Open(ops[..j + 1], i) <==> ReplacedLate(ops, i, j)
    {
      DueGap(ops, i, j);
    }
  }

  lemma DueGap<T>(ops: seq<Op<T>>, i: nat, j: nat)
    requires Due(ops, i, j)
    ensures Open(ops[..j + 1], i) <==> ReplacedLate(ops, i, j)
  {
    hide RunOne, Decide, Open, Silent, LatestParked;
    Prefix(ops, j, i);
    GapEnds(ops[..j], i, ops[j].now);
    assert ops[..j] + [Tick(ops[j].now)] == ops[..j + 1];
    var k := LatestIs(ops[..j], i);
    if k != i {
      Prefix(ops, j, k);
    }
  }

  // ----- "no parked event is lost", over whole runs -----

  /** A parked event stays until it is handed out. */
  ghost predicate KeepsParked<T>(ops: seq<Op<T>>) {
    forall k :: 0 <= k < |ops| && Occupied(RunOne(ops[..k]).0) ==>
      var p := RunOne(ops[..k]).0.value.pending.value;
      var (after, out) := StepOne(RunOne(ops[..k]).0, ops[k]);
      (after.Some? && after.value.pending == Some(p)) || Applied(p.event, p.seq_) in out
  }

  /** The property holds of a run exactly if no step restarts the epoch, replaces the
      parked event or fills part of the gap while an event is parked. */
  lemma KeepsParkedExactlyWhen<T>(ops: seq<Op<T>>)
    ensures KeepsParked(ops)
            <==> forall k :: 0 <= k < |ops| && Occupied(RunOne(ops[..k]).0) ==> !Discards(RunOne(ops[..k]).0.value, ops[k])
  {
    hide StepOne, Discards, RunOne;
    forall k | 0 <= k < |ops| && Occupied(RunOne(ops[..k]).0)
      ensures var ss := RunOne(ops[..k]).0.value;
              var (after, out) := StepOne(Some(ss), ops[k]);
              Discards(ss, ops[k])
              <==> !(after.Some? && after.value.pending == ss.pending) && Applied(ss.pending.value.event, ss.pending.value.seq_) !in out
    {
      AppliedInOrder(ops[..k]);
      ParkedFate(RunOne(ops[..k]).0.value, ops[k]);
    }
  }

  // ----- a gap that does outlive its timeout -----

  function Numbered(n: int): Playback<int> { Playback("s", n, 0) }

  const Replacing: seq<Op<int>> :=
    [Receive(Numbered(1), 0), Receive(Numbered(3), 1), Tick(4000), Receive(Numbered(4), 4900), Tick(5001),
     Receive(Numbered(5), 9800), Tick(10000)]

  function Holding(n: int, at: int): Option<SenderState<int>> {
    Some(SenderState(1, Some(Parked(Numbered(n), at, n))))
  }

  lemma RunNext<T>(ops: seq<Op<T>>, k: nat)
    requires k < |ops|
    ensures RunOne(ops[..k + 1])
            == (StepOne(RunOne(ops[..k]).0, ops[k]).0, RunOne(ops[..k]).1 + StepOne(RunOne(ops[..k]).0, ops[k]).1)
  {
    assert ops[..k + 1][..k] == ops[..k];
  }

  lemma ReplacingStarts()
    ensures RunOne(Replacing[..1]) == (Some(SenderState(1, None)), [Applied(Numbered(1), 1)])
    ensures RunOne(Replacing[..2]) == (Holding(3, 1), [Applied(Numbered(1), 1)])
    ensures Decide(Some(SenderState(1, None)), Numbered(3), 1).0.Buffer?
  {
    RunNext(Replacing, 0);
    RunNext(Replacing, 1);
    assert Replacing[..0] == [];
    assert [] + [Applied(Numbered(1), 1)] == [Applied(Numbered(1), 1)] + [] == [Applied(Numbered(1), 1)];
    assert StepOne(None, Replacing[0]) == (Some(SenderState(1, None)), [Applied(Numbered(1), 1)]);
    assert StepOne(Some(SenderState(1, None)), Replacing[1]) == (Holding(3, 1), []);
  }

  /** Holding number `m`, the receiver parks the larger `n` instead. */
  lemma Replaces(k: nat, m: int, at: int, n: int, now: int)
    requires k < |Replacing| && RunOne(Replacing[..k]) == (Holding(m, at), [Applied(Numbered(1), 1)])
    requires 2 < m < n && Replacing[k] == Receive(Numbered(n), now)
    ensures RunOne(Replacing[..k + 1]) == (Holding(n, now), [Applied(Numbered(1), 1)])
  {
    assert StepOne(Holding(m, at), Replacing[k]) == (Holding(n, now), []);
    hide StepOne, RunOne;
    RunNext(Replacing, k);
    assert [Applied(Numbered(1), 1)] + [] == [Applied(Numbered(1), 1)];
  }

  lemma Waits(k: nat, m: int, at: int, now: int)
    requires k < |Replacing| && RunOne(Replacing[..k]) == (Holding(m, at), [Applied(Numbered(1), 1)])
    requires Replacing[k] == Tick(now) && now - at < BUFFER_TIMEOUT_MS
    ensures RunOne(Replacing[..k + 1]) == (Holding(m, at), [Applied(Numbered(1), 1)])
  {
    assert StepOne(Holding(m, at), Replacing[k]) == (Holding(m, at), []);
    hide StepOne, RunOne;
    RunNext(Replacing, k);
    assert [Applied(Numbered(1), 1)] + [] == [Applied(Numbered(1), 1)];
  }

  /** The gap before 2 opens at 1 ms and is still open after a tick at 10 s. */
  lemma GapOutlivesTimeout()
    ensures RunOne(Replacing).1 == [Applied(Numbered(1), 1)]
    ensures Due(Replacing, 1, 6) && !EveryGapEnds(Replacing)
  {
    hide StepOne, RunOne, Decide;
    ReplacingStarts();
    Waits(2, 3, 1, 4000);
    Replaces(3, 3, 1, 4, 4900);
    Waits(4, 4, 4900, 5001);
    Replaces(5, 4, 4900, 5, 9800);
    Waits(6, 5, 9800, 10000);
    assert Replacing[..7] == Replacing;
    assert Opens(Replacing, 1);
    OpenIsSilent(Replacing, 1);
    assert Replacing[..6 + 1] == Replacing;
  }
}
