/** The byte budget shared by all connections, at the granularity of its atomic
    instructions (shared/protocol/src/manifest_parts.rs:131-183): every
    interleaving of loads, compare-and-swaps and releases of any number of
    assemblers that run whole pushes concurrently. */
module SharedBudget {
  import opened Wrappers
  import opened Words
  import opened ManifestParts
  import opened AssemblyTable
  import opened AssemblyRuns
  import opened AssemblySafety

  // ----- each transition of a table conserves the bytes reserved -----

  lemma {:induction false} SumAppend(a: seq<nat>, b: seq<nat>)
    ensures Sum(a + b) == Sum(a) + Sum(b)
  {
    if b == [] {
      assert a + b == a;
    } else {
      SumAppend(a, b[..|b| - 1]);
      assert (a + b)[..|a + b| - 1] == a + b[..|b| - 1];
    }
  }

  lemma SumOne(n: nat)
    ensures Sum([n]) == n
  {
    assert [n][..0] == [];
  }

  lemma {:induction false} RetainConserves(es: seq<Assembly>, keep: Assembly -> bool)
    ensures Held(Kept(es, keep)) + Sum(Dropped(es, keep)) == Held(es)
  {
    if es != [] {
      var n := |es| - 1;
      RetainConserves(es[..n], keep);
      var k, d := Kept(es[..n], keep), Dropped(es[..n], keep);
      assert (k + [es[n]])[..|k|] == k;
      assert (d + [es[n].totalBytes])[..|d|] == d;
      assert k + [] == k && d + [] == d;
    }
  }

  lemma {:induction false} HeldUpdate(es: seq<Assembly>, i: nat, e: Assembly)
    requires i < |es|
    ensures Held(es[i := e]) == Held(es) - es[i].totalBytes + e.totalBytes
  {
    var n := |es| - 1;
    if i < n {
      HeldUpdate(es[..n], i, e);
      assert es[i := e][..n] == es[..n][i := e];
    } else {
      assert es[i := e][..n] == es[..n];
    }
  }

  lemma SwapRemoveConserves(t: Table, i: nat)
    requires i < |t.entries|
    ensures Balance(SwapRemove(t, i)) == Balance(t)
  {
    var es := t.entries;
    var n := |es| - 1;
    HeldUpdate(es, i, es[n]);
    assert Held(es[i := es[n]]) == Held(SwapRemoved(es, i)) + es[n].totalBytes;
    SumAppend(t.freed, [es[i].totalBytes]);
    SumOne(es[i].totalBytes);
  }

  /** Bytes reserved by a table, whether still held or about to be given back. */
  function Balance(t: Table): nat {
    Held(t.entries) + Sum(t.freed)
  }

  lemma KeepConserves(t: Table, keep: Assembly -> bool)
    ensures Balance(Retain(t, keep)) == Balance(t)
  {
    RetainConserves(t.entries, keep);
    SumAppend(t.freed, Dropped(t.entries, keep));
  }

  lemma {:induction false} EvictConserves(t: Table, max: nat)
    requires max > 0
    ensures Balance(Evict(t, max)) == Balance(t)
    decreases |t.entries|
  {
    if |t.entries| >= max {
      SwapRemoveConserves(t, Oldest(t.entries));
      EvictConserves(SwapRemove(t, Oldest(t.entries)), max);
    }
  }

  lemma FrontConserves(max: nat, ttl: nat, es: seq<Assembly>, room: Uuid, p: Part, now: int)
    requires max > 0
    ensures Balance(PushFront(max, ttl, es, room, p, now).table) == Held(es)
  {
    hide Balance, Evict, ValidateHeader;
    assert Balance(Table(es, [])) == Held(es) by {
      BalanceEmpty(es);
    }
    var t := Expire(Table(es, []), ttl, now);
    KeepConserves(Table(es, []), (e: Assembly) => Age(e, now) < ttl);
    KeepConserves(t, (e: Assembly) => !(e.room == room && e.id == p.assemblyId));
    var byKind := (e: Assembly) => !(e.room == room && e.kind == p.kind);
    KeepConserves(t, byKind);
    EvictConserves(Retain(t, byKind), max);
  }

  lemma BalanceEmpty(es: seq<Assembly>)
    ensures Balance(Table(es, [])) == Held(es)
  {}

  lemma TakeConserves<M>(codec: Codec<M>, t: Table, pos: nat, p: Part, piece: Bytes, now: int)
    requires pos < |t.entries| && EndsOk(t.entries[pos])
    ensures Balance(Take(codec, t, pos, p, piece, now).0) == Balance(t)
  {
    var (e, r) := TakePiece(codec, t.entries[pos], p, piece, now);
    assert e.totalBytes == t.entries[pos].totalBytes;
    HeldUpdate(t.entries, pos, e);
    SwapRemoveConserves(t.(entries := t.entries[pos := e]), pos);
  }

  lemma BeginConserves<M>(codec: Codec<M>, t: Table, room: Uuid, p: Part, piece: Bytes, now: int)
    ensures Balance(Begin(codec, t, room, p, piece, now).0) == Balance(t) + p.totalBytes
  {
    var es := t.entries + [NewAssembly(room, p, now)];
    assert es[..|t.entries|] == t.entries;
    TakeConserves(codec, t.(entries := es), |t.entries|, p, piece, now);
  }

  // ----- the concurrent system -----

  /** Where a connection's thread is: between calls, or inside `reserve` with the
      last value of the counter it has seen. */
  datatype Pc = Idle | Reserving(room: Uuid, part: Part, piece: Bytes, now: int, seen: Option<nat>)

  /** One connection: its table, the reservations it has dropped but not yet
      subtracted, and the calls it has completed with their results. */
  datatype Conn<!M> = Conn(table: Table, pc: Pc, log: seq<Op>, results: seq<PushResult<M>>)

  datatype Budget<!M> = Budget(used: int, cap: nat, conns: seq<Conn<M>>)

  datatype Event =
    | StartPush(room: Uuid, part: Part, now: int)
    | StartExpire(now: int)
    | StartClear
    | FetchSub
    | Load
    | CompareExchange

  /** The answers of the pushes of a sequential run. */
  function Answers<M>(cfg: Config<M>, ops: seq<Op>): seq<PushResult<M>>
    requires cfg.maxConcurrent > 0
  {
    if ops == [] then []
    else
      var before, op := ops[..|ops| - 1], ops[|ops| - 1];
      Answers(cfg, before)
      + if op.PushOp? then [Push(cfg, Run(cfg, before), op.room, op.part, op.now, op.granted).1] else []
  }

  /** The connection's completed calls are a sequential run of the assembler with
      the budget's answers as oracle, and so are its table and its answers. */
  ghost predicate WellFormed<M>(cfg: Config<M>, c: Conn<M>) {
    && cfg.maxConcurrent > 0
    && c.results == Answers(cfg, c.log)
    && match c.pc
       case Idle => c.table.entries == Run(cfg, c.log)
       case Reserving(room, p, piece, now, seen) =>
         var f := PushFront(cfg.maxConcurrent, cfg.ttl, Run(cfg, c.log), room, p, now);
         f.Fresh? && f.piece == piece && f.table.entries == c.table.entries
  }

  /** A thread returns from `push`: the log and the answer grow. */
  function Return<M>(c: Conn<M>, t: Table, op: Op, r: PushResult<M>): Conn<M> {
    Conn(t, Idle, c.log + [op], c.results + [r])
  }

  /** One atomic step of one connection. A call starts and a compare-and-swap
      happens only once all earlier releases of that thread were carried out. */
  ghost predicate Step<M>(cfg: Config<M>, used: int, cap: nat, c: Conn<M>, ev: Event, used': int, c': Conn<M>)
    requires WellFormed(cfg, c)
  {
    match ev
    case FetchSub =>
      && c.table.freed != []
      && used' == used - c.table.freed[|c.table.freed| - 1]
      && c' == c.(table := c.table.(freed := c.table.freed[..|c.table.freed| - 1]))
    case StartPush(room, p, now) =>
      && c.pc.Idle? && c.table.freed == [] && used' == used
      && (match PushFront(cfg.maxConcurrent, cfg.ttl, c.table.entries, room, p, now)
          case Fresh(t, piece) => c' == c.(table := t, pc := Reserving(room, p, piece, now, None))
          case _ =>
            var (t, r) := Push(cfg, c.table.entries, room, p, now, false);
            c' == Return(c, t, PushOp(room, p, now, false), r))
    case StartExpire(now) =>
      && c.pc.Idle? && c.table.freed == [] && used' == used
      && c' == c.(table := Expire(c.table, cfg.ttl, now), log := c.log + [ExpireOp(now)])
    case StartClear =>
      && c.pc.Idle? && c.table.freed == [] && used' == used
      && c' == c.(table := Retain(c.table, (e: Assembly) => false), log := c.log + [ClearOp])
    case Load =>
      && c.pc.Reserving? && c.pc.seen.None? && c.table.freed == []
      && used' == used && used >= 0
      && c' == c.(pc := c.pc.(seen := Some(used)))
    case CompareExchange =>
      && c.pc.Reserving? && c.pc.seen.Some? && c.table.freed == []
      && var Reserving(room, p, piece, now, seen) := c.pc;
         if seen.value + p.totalBytes > cap then
           && used' == used
           && c' == Return(c, c.table, PushOp(room, p, now, false), Err(BudgetExhausted))
         else if used == seen.value then
           && used' == seen.value + p.totalBytes
           && var (t, r) := Begin(cfg.codec, c.table, room, p, piece, now);
              c' == Return(c, t, PushOp(room, p, now, true), r)
         else
           && used' == used && used >= 0
           && c' == c.(pc := c.pc.(seen := Some(used)))
  }

  function TotalBalance<M>(conns: seq<Conn<M>>): nat {
    if conns == [] then 0 else TotalBalance(conns[..|conns| - 1]) + Balance(conns[|conns| - 1].table)
  }

  /** The conservation law and the per-connection refinement. */
  ghost predicate Safe<M>(cfgs: seq<Config<M>>, s: Budget<M>) {
    && s.used == TotalBalance(s.conns)
    && s.used <= s.cap
    && |s.conns| == |cfgs|
    && forall i :: 0 <= i < |s.conns| ==> WellFormed(cfgs[i], s.conns[i])
  }

  ghost predicate Next<M>(cfgs: seq<Config<M>>, s: Budget<M>, i: nat, ev: Event, s': Budget<M>) {
    && i < |s.conns| == |s'.conns| == |cfgs| && s'.cap == s.cap
    && WellFormed(cfgs[i], s.conns[i])
    && Step(cfgs[i], s.used, s.cap, s.conns[i], ev, s'.used, s'.conns[i])
    && s'.conns == s.conns[i := s'.conns[i]]
  }

  lemma {:induction false} TotalUpdate<M>(conns: seq<Conn<M>>, i: nat, c: Conn<M>)
    requires i < |conns|
    ensures TotalBalance(conns[i := c]) == TotalBalance(conns) - Balance(conns[i].table) + Balance(c.table)
  {
    var n := |conns| - 1;
    if i < n {
      TotalUpdate(conns[..n], i, c);
      assert conns[i := c][..n] == conns[..n][i := c];
    } else {
      assert conns[i := c][..n] == conns[..n];
    }
  }

  lemma RunSnoc<M>(cfg: Config<M>, ops: seq<Op>, op: Op)
    requires cfg.maxConcurrent > 0
    ensures Run(cfg, ops + [op]) == Apply(cfg, Run(cfg, ops), op)
    ensures Answers(cfg, ops + [op]) == Answers(cfg, ops)
              + if op.PushOp? then [Push(cfg, Run(cfg, ops), op.room, op.part, op.now, op.granted).1] else []
  {
    hide Push, Apply, Inv;
    assert (ops + [op])[..|ops|] == ops;
  }

  /** One atomic step changes the counter by exactly what it changes the
      reservations of its own connection, and never pushes it over the cap. */
  lemma StepConserves<M>(cfg: Config<M>, used: int, cap: nat, c: Conn<M>, ev: Event, used': int, c': Conn<M>)
    requires WellFormed(cfg, c) && Step(cfg, used, cap, c, ev, used', c')
    ensures used' - used == Balance(c'.table) - Balance(c.table)
    ensures used <= cap ==> used' <= cap
  {
    hide Run, Balance, PushFront, Take, Begin;
    match ev
    case FetchSub =>
      FreedLast(c.table);
    case StartPush(room, p, now) =>
      BalanceEmpty(c.table.entries);
      assert c.table == Table(c.table.entries, []);
      FrontConserves(cfg.maxConcurrent, cfg.ttl, c.table.entries, room, p, now);
      var f := PushFront(cfg.maxConcurrent, cfg.ttl, c.table.entries, room, p, now);
      if f.Known? {
        FrontOrigin(cfg.maxConcurrent, cfg.ttl, c.table.entries, room, p, now);
        assert f.table.entries[f.pos] in f.table.entries;
        assert EntryOk(f.table.entries[f.pos]);
        TakeConserves(cfg.codec, f.table, f.pos, p, f.piece, now);
      }
    case StartExpire(now) =>
      KeepConserves(c.table, (e: Assembly) => Age(e, now) < cfg.ttl);
    case StartClear =>
      KeepConserves(c.table, (e: Assembly) => false);
    case Load =>
    case CompareExchange =>
      var Reserving(room, p, piece, now, seen) := c.pc;
      BeginConserves(cfg.codec, c.table, room, p, piece, now);
  }

  lemma FreedLast(t: Table)
    requires t.freed != []
    ensures Balance(t) == Balance(t.(freed := t.freed[..|t.freed| - 1])) + t.freed[|t.freed| - 1]
  {}

  /** Concurrency is invisible to a connection beyond the budget's answers. */
  lemma StepRefines<M>(cfg: Config<M>, used: int, cap: nat, c: Conn<M>, ev: Event, used': int, c': Conn<M>)
    requires WellFormed(cfg, c) && Step(cfg, used, cap, c, ev, used', c')
    ensures WellFormed(cfg, c')
  {
    hide Run, Answers, Take, Begin, Balance, PushFront, Kept, Inv;
    match ev
    case FetchSub =>
    case StartPush(room, p, now) =>
      RunSnoc(cfg, c.log, PushOp(room, p, now, false));
    case StartExpire(now) =>
      RunSnoc(cfg, c.log, ExpireOp(now));
    case StartClear =>
      RunSnoc(cfg, c.log, ClearOp);
      KeptNone(c.table.entries);
    case Load =>
    case CompareExchange =>
      var Reserving(room, p, piece, now, seen) := c.pc;
      RunSnoc(cfg, c.log, PushOp(room, p, now, false));
      RunSnoc(cfg, c.log, PushOp(room, p, now, true));
      var f := PushFront(cfg.maxConcurrent, cfg.ttl, Run(cfg, c.log), room, p, now);
      BeginEntries(cfg.codec, c.table, f.table, room, p, piece, now);
  }

  lemma {:induction false} KeptNone(es: seq<Assembly>)
    ensures Kept(es, (e: Assembly) => false) == []
  {
    if es != [] {
      KeptNone(es[..|es| - 1]);
    }
  }

  lemma BeginEntries<M>(codec: Codec<M>, t: Table, t': Table, room: Uuid, p: Part, piece: Bytes, now: int)
    requires t.entries == t'.entries
    ensures Begin(codec, t, room, p, piece, now).0.entries == Begin(codec, t', room, p, piece, now).0.entries
    ensures Begin(codec, t, room, p, piece, now).1 == Begin(codec, t', room, p, piece, now).1
  {
    hide TakePiece;
  }

  lemma NextSafe<M>(cfgs: seq<Config<M>>, s: Budget<M>, i: nat, ev: Event, s': Budget<M>)
    requires Safe(cfgs, s) && Next(cfgs, s, i, ev, s')
    ensures Safe(cfgs, s')
  {
    hide WellFormed, Step;
    StepConserves(cfgs[i], s.used, s.cap, s.conns[i], ev, s'.used, s'.conns[i]);
    StepRefines(cfgs[i], s.used, s.cap, s.conns[i], ev, s'.used, s'.conns[i]);
    TotalUpdate(s.conns, i, s'.conns[i]);
  }

  // ----- whole behaviours -----

  datatype Action = Action(conn: nat, ev: Event)

  ghost predicate Initial<M>(cfgs: seq<Config<M>>, s: Budget<M>) {
    && s.used == 0 <= s.cap && |s.conns| == |cfgs|
    && (forall i :: 0 <= i < |cfgs| ==> cfgs[i].maxConcurrent > 0)
    && forall i :: 0 <= i < |s.conns| ==> s.conns[i] == Conn(Table([], []), Idle, [], [])
  }

  /** `trace` is an interleaving: every step is one atomic step of one connection, each
      with its own `cfgs[i]`. */
  ghost predicate Behavior<M>(cfgs: seq<Config<M>>, trace: seq<Budget<M>>, acts: seq<Action>) {
    && |trace| == |acts| + 1
    && Initial(cfgs, trace[0])
    && forall k :: 0 <= k < |acts| ==> Next(cfgs, trace[k], acts[k].conn, acts[k].ev, trace[k + 1])
  }

  lemma {:induction false} NothingHeld<M>(conns: seq<Conn<M>>)
    requires forall i :: 0 <= i < |conns| ==> conns[i].table.entries == [] && conns[i].table.freed == []
    ensures TotalBalance(conns) == 0
  {
    if conns != [] {
      NothingHeld(conns[..|conns| - 1]);
    }
  }

  lemma InitialSafe<M>(cfgs: seq<Config<M>>, s: Budget<M>)
    requires Initial(cfgs, s)
    ensures Safe(cfgs, s)
  {
    NothingHeld(s.conns);
  }

  /** In every interleaving, at every moment: the counter is exactly the bytes
      reserved by all assemblies of all connections (or just dropped and not yet
      subtracted), it never exceeds the cap, each connection has behaved like a
      sequential assembler, and the counter is zero whenever nothing is held. */
  lemma {:induction false} Conservation<M>(cfgs: seq<Config<M>>, trace: seq<Budget<M>>, acts: seq<Action>, k: nat)
    requires Behavior(cfgs, trace, acts) && k < |trace|
    ensures Safe(cfgs, trace[k])
    ensures (forall i :: 0 <= i < |trace[k].conns| ==> trace[k].conns[i].table == Table([], [])) ==> trace[k].used == 0
  {
    hide WellFormed, Step, Initial;
    if k == 0 {
      InitialSafe(cfgs, trace[0]);
    } else {
      Conservation(cfgs, trace, acts, k - 1);
      NextSafe(cfgs, trace[k - 1], acts[k - 1].conn, acts[k - 1].ev, trace[k]);
    }
    if forall i :: 0 <= i < |trace[k].conns| ==> trace[k].conns[i].table == Table([], []) {
      NothingHeld(trace[k].conns);
    }
  }

  /** No spurious refusal: when the loop gives up on a value of the counter, the
      counter really had that value at a moment inside this very call. */
  lemma {:induction false} SeenWasReal<M>(cfgs: seq<Config<M>>, trace: seq<Budget<M>>, acts: seq<Action>, k: nat, i: nat) returns (j: nat)
    requires Behavior(cfgs, trace, acts) && k < |trace| && i < |trace[k].conns|
    requires trace[k].conns[i].pc.Reserving? && trace[k].conns[i].pc.seen.Some?
    ensures j <= k && trace[j].used == trace[k].conns[i].pc.seen.value
    ensures forall h :: j <= h <= k ==>
              && i < |trace[h].conns| && trace[h].conns[i].pc.Reserving?
              && trace[h].conns[i].pc.part == trace[k].conns[i].pc.part
              && trace[h].conns[i].log == trace[k].conns[i].log
  {
    hide WellFormed, PushFront, Push, Begin, Retain, Expire;
    var a := acts[k - 1];
    assert Next(cfgs, trace[k - 1], a.conn, a.ev, trace[k]);
    if a.conn == i && (a.ev.Load? || a.ev.CompareExchange?) {
      j := k - 1;
    } else {
      j := SeenWasReal(cfgs, trace, acts, k - 1, i);
    }
  }

  /** What one compare-and-swap of a call decides: it grants if the bytes fit at this very
      moment, gives up only if they did not fit at a moment inside the call, and tries
      again only if another connection has changed the counter in between. */
  lemma SwapDecides<M>(cfgs: seq<Config<M>>, trace: seq<Budget<M>>, acts: seq<Action>, k: nat) returns (j: nat)
    requires Behavior(cfgs, trace, acts) && k < |acts| && acts[k].ev.CompareExchange?
    ensures var i := acts[k].conn;
            && i < |trace[k].conns| == |trace[k + 1].conns| && trace[k].conns[i].pc.Reserving?
            && j <= k && j < |trace| && i < |trace[j].conns| && trace[j].conns[i].pc.Reserving?
            && trace[j].conns[i].log == trace[k].conns[i].log
            && var Reserving(room, p, piece, now, seen) := trace[k].conns[i].pc;
               var s, s' := trace[k], trace[k + 1];
               || (&& s'.conns[i].log == s.conns[i].log + [PushOp(room, p, now, true)]
                   && s.used + p.totalBytes <= s.cap && s'.used == s.used + p.totalBytes)
               || (&& s'.conns[i].log == s.conns[i].log + [PushOp(room, p, now, false)]
                   && trace[j].used + p.totalBytes > s.cap && s'.used == s.used)
               || (&& s'.conns[i].log == s.conns[i].log && s'.conns[i].pc.Reserving?
                   && trace[j].used != s.used == s'.used)
  {
    hide WellFormed, PushFront, Push, Begin, Retain, Expire;
    var i := acts[k].conn;
    assert Next(cfgs, trace[k], i, acts[k].ev, trace[k + 1]);
    j := SeenWasReal(cfgs, trace, acts, k, i);
    assert trace[j].conns[i].pc.Reserving?;
  }
}
