/** Disturbed streams described by what the network did to them: numbers 1..n with
    disjoint neighbours exchanged, repeats inserted, ticks in between
    (apps/client/src/drift/dedup.ts:153-343). */
module DedupStreams {
  import opened Wrappers
  import opened Dedup

  /** From `k + 1` on: each move sends the next number, or the next two exchanged. */
  datatype Move = InOrder | Exchanged

  function Arranged(k: nat, moves: seq<Move>): seq<int>
    decreases |moves|
  {
    if moves == [] then []
    else match moves[0]
      case InOrder => [k + 1] + Arranged(k + 1, moves[1..])
      case Exchanged => [k + 2, k + 1] + Arranged(k + 2, moves[1..])
  }

  /** The last number sent. */
  function Total(k: nat, moves: seq<Move>): nat
    decreases |moves|
  {
    if moves == [] then k else Total(if moves[0].InOrder? then k + 1 else k + 2, moves[1..])
  }

  /** Numbers that have not arrived before arrive in this order; every other receipt
      repeats a number above 1 that has; ticks may come at any point. */
  ghost predicate Follows<T>(ops: seq<Op<T>>, seen: set<int>, order: seq<int>)
    decreases |ops|
  {
    if ops == [] then order == []
    else match ops[0]
      case Tick(_) => Follows(ops[1..], seen, order)
      case Receive(e, _) =>
        if e.seq_ in seen then e.seq_ > 1 && Follows(ops[1..], seen, order)
        else order != [] && e.seq_ == order[0] && Follows(ops[1..], seen + {e.seq_}, order[1..])
  }

  ghost predicate Has<T>(ops: seq<Op<T>>, m: int) {
    exists i :: 0 <= i < |ops| && ops[i].Receive? && ops[i].event.seq_ == m
  }

  /** No tick comes 5 s or more after `t` before `m` arrives. */
  ghost predicate Waits<T>(ops: seq<Op<T>>, m: int, t: int) {
    forall j :: 0 <= j < |ops| && ops[j].Tick? && !Has(ops[..j], m) ==> ops[j].now - t < BUFFER_TIMEOUT_MS
  }

  ghost predicate Arrived<T>(ops: seq<Op<T>>, seen: set<int>, m: int) {
    m in seen || Has(ops, m)
  }

  /** Operation `i` brings a number ahead of its predecessor. */
  ghost predicate Ahead<T>(ops: seq<Op<T>>, seen: set<int>, i: nat)
    requires i < |ops|
  {
    && ops[i].Receive? && ops[i].event.seq_ > 1
    && !Arrived(ops[..i], seen, ops[i].event.seq_) && !Arrived(ops[..i], seen, ops[i].event.seq_ - 1)
  }

  /** Whatever comes ahead of its predecessor gets it before a tick 5 s later. */
  ghost predicate Timely<T>(ops: seq<Op<T>>, seen: set<int>) {
    forall i :: 0 <= i < |ops| && Ahead(ops, seen, i) ==> Waits(ops[i + 1..], ops[i].event.seq_ - 1, ops[i].now)
  }

  // ----- peeling off the first operation -----

  function Seen<T>(op: Op<T>, seen: set<int>): set<int> {
    match op case Receive(e, _) => seen + {e.seq_} case Tick(_) => seen
  }

  lemma ArrivedTail<T>(ops: seq<Op<T>>, seen: set<int>, i: nat, m: int)
    requires i < |ops|
    ensures Arrived(ops[1..][..i], Seen(ops[0], seen), m) <==> Arrived(ops[..i + 1], seen, m)
  {
    var tail, all := ops[1..][..i], ops[..i + 1];
    assert all == [ops[0]] + tail;
    if Has(tail, m) {
      var j :| 0 <= j < |tail| && tail[j].Receive? && tail[j].event.seq_ == m;
      assert all[j + 1] == tail[j];
    }
    if Has(all, m) {
      var j :| 0 <= j < |all| && all[j].Receive? && all[j].event.seq_ == m;
      assert j > 0 ==> tail[j - 1] == all[j];
    }
    assert all[0] == ops[0];
  }

  lemma TimelyTail<T>(ops: seq<Op<T>>, seen: set<int>)
    requires ops != [] && Timely(ops, seen)
    ensures Timely(ops[1..], Seen(ops[0], seen))
  {
    hide Arrived, Waits;
    forall i | 0 <= i < |ops| - 1 && Ahead(ops[1..], Seen(ops[0], seen), i)
      ensures Waits(ops[1..][i + 1..], ops[1..][i].event.seq_ - 1, ops[1..][i].now)
    {
      var n := ops[i + 1].event.seq_;
      ArrivedTail(ops, seen, i, n);
      ArrivedTail(ops, seen, i, n - 1);
      assert Ahead(ops, seen, i + 1);
      assert ops[1..][i + 1..] == ops[i + 2..];
    }
  }

  lemma WaitsTail<T>(ops: seq<Op<T>>, m: int, t: int)
    requires ops != [] && Waits(ops, m, t) && !(ops[0].Receive? && ops[0].event.seq_ == m)
    ensures Waits(ops[1..], m, t)
  {
    forall j | 0 <= j < |ops| - 1 && ops[1..][j].Tick? && !Has(ops[1..][..j], m)
      ensures ops[1..][j].now - t < BUFFER_TIMEOUT_MS
    {
      ArrivedTail(ops, {}, j, m);
      assert ops[1..][j] == ops[j + 1];
    }
  }

  lemma WaitsNow<T>(ops: seq<Op<T>>, m: int, t: int)
    requires ops != [] && Waits(ops, m, t) && ops[0].Tick?
    ensures ops[0].now - t < BUFFER_TIMEOUT_MS
  {
    assert !Has(ops[..0], m);
  }

  lemma FirstAhead<T>(ops: seq<Op<T>>, seen: set<int>)
    requires ops != [] && Timely(ops, seen)
    requires ops[0].Receive? && ops[0].event.seq_ > 1 && ops[0].event.seq_ !in seen && ops[0].event.seq_ - 1 !in seen
    ensures Waits(ops[1..], ops[0].event.seq_ - 1, ops[0].now)
  {
    hide Waits;
    assert ops[..0] == [] && Ahead(ops, seen, 0);
  }

  // ----- such a stream is one the receiver restores -----

  /** What has arrived when `k` was applied, with `k + 2` parked if so. */
  ghost predicate Known(seen: set<int>, k: nat, parked: bool) {
    forall m :: m in seen <==> 1 <= m <= k || (parked && m == k + 2)
  }

  function Rest(k: nat, parked: bool, moves: seq<Move>): seq<int> {
    if parked then [k + 1] + Arranged(k + 2, moves) else Arranged(k, moves)
  }

  lemma {:induction false} BuiltIsDisturbed<T>(ops: seq<Op<T>>, seen: set<int>, k: nat, parkedAt: Option<int>, moves: seq<Move>)
    requires Known(seen, k, parkedAt.Some?)
    requires Follows(ops, seen, Rest(k, parkedAt.Some?, moves)) && Timely(ops, seen)
    requires parkedAt.Some? ==> Waits(ops, k + 1, parkedAt.value)
    ensures Disturbed(ops, k, parkedAt, Total(if parkedAt.Some? then k + 2 else k, moves))
    decreases |ops|
  {
    hide Timely, Waits;
    if ops == [] {
      assert moves == [];
    } else {
      TimelyTail(ops, seen);
      if ops[0].Tick? {
        if parkedAt.Some? {
          WaitsNow(ops, k + 1, parkedAt.value);
          WaitsTail(ops, k + 1, parkedAt.value);
        }
        BuiltIsDisturbed(ops[1..], seen, k, parkedAt, moves);
      } else {
        BuiltReceive(ops, seen, k, parkedAt, moves);
      }
    }
  }

  lemma {:induction false} BuiltReceive<T>(ops: seq<Op<T>>, seen: set<int>, k: nat, parkedAt: Option<int>, moves: seq<Move>)
    requires ops != [] && ops[0].Receive? && Known(seen, k, parkedAt.Some?)
    requires Follows(ops, seen, Rest(k, parkedAt.Some?, moves)) && Timely(ops, seen)
    requires Timely(ops[1..], Seen(ops[0], seen))
    requires parkedAt.Some? ==> Waits(ops, k + 1, parkedAt.value)
    ensures Disturbed(ops, k, parkedAt, Total(if parkedAt.Some? then k + 2 else k, moves))
    decreases |ops|, 0
  {
    hide Timely, Waits;
    var n := ops[0].event.seq_;
    var order := Rest(k, parkedAt.Some?, moves);
    if n in seen {
      assert Seen(ops[0], seen) == seen;
      if parkedAt.Some? {
        WaitsTail(ops, k + 1, parkedAt.value);
      }
      BuiltIsDisturbed(ops[1..], seen, k, parkedAt, moves);
    } else if parkedAt.Some? {
      assert order[1..] == Arranged(k + 2, moves);
      BuiltIsDisturbed(ops[1..], seen + {n}, k + 2, None, moves);
    } else if moves[0].InOrder? {
      assert order[1..] == Arranged(k + 1, moves[1..]);
      BuiltIsDisturbed(ops[1..], seen + {n}, k + 1, None, moves[1..]);
    } else {
      assert order[1..] == [k + 1] + Arranged(k + 2, moves[1..]);
      FirstAhead(ops, seen);
      BuiltIsDisturbed(ops[1..], seen + {n}, k, Some(ops[0].now), moves[1..]);
    }
  }

  /** Numbers 1..n sent with disjoint neighbours exchanged, with repeats of anything
      above 1 that has arrived, and with no tick 5 s late, are applied as exactly 1..n,
      each with the event that arrived first under it. */
  lemma ExchangesRestored<T>(ops: seq<Op<T>>, moves: seq<Move>)
    requires Follows(ops, {}, Arranged(0, moves)) && Timely(ops, {})
    ensures |RunOne(ops).1| == Total(0, moves)
    ensures forall i :: 0 <= i < |RunOne(ops).1| ==> RunOne(ops).1[i].seq_ == RunOne(ops).1[i].event.seq_ == i + 1
    ensures forall i :: 0 <= i < |RunOne(ops).1| ==> Some(RunOne(ops).1[i].event) == First(ops, i + 1)
  {
    hide Timely, RunOne;
    BuiltIsDisturbed(ops, {}, 0, None, moves);
    StreamRestored(ops, Total(0, moves));
  }
}
