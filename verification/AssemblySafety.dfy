/** Safety over whole runs: a manifest that `push` returns is made of exactly
    the pieces of one assembly, pushed in order under one header, and no piece
    of that assembly that was pushed meanwhile disagreed. */
module AssemblySafety {
  import opened Wrappers
  import opened Words
  import opened ManifestParts
  import opened AssemblyTable
  import opened AssemblyRuns
  import Base64

  datatype Op =
    | PushOp(room: Uuid, part: Part, now: int, granted: bool)
    | ExpireOp(now: int)
    | ClearOp

  function Apply<M>(cfg: Config<M>, es: seq<Assembly>, op: Op): (es': seq<Assembly>)
    requires cfg.maxConcurrent > 0 && Inv(cfg.maxConcurrent, es)
    ensures Inv(cfg.maxConcurrent, es')
  {
    match op
    case PushOp(room, p, now, granted) =>
      PushKeepsInv(cfg, es, room, p, now, granted);
      Push(cfg, es, room, p, now, granted).0.entries
    case ExpireOp(now) =>
      KeptMembers(es, (e: Assembly) => Age(e, now) < cfg.ttl);
      KeptDistinct(es, (e: Assembly) => Age(e, now) < cfg.ttl);
      Expire(Table(es, []), cfg.ttl, now).entries
    case ClearOp => []
  }

  /** The table after a run that started empty. */
  function Run<M>(cfg: Config<M>, ops: seq<Op>): (es: seq<Assembly>)
    requires cfg.maxConcurrent > 0
    ensures Inv(cfg.maxConcurrent, es)
  {
    if ops == [] then [] else Apply(cfg, Run(cfg, ops[..|ops| - 1]), ops[|ops| - 1])
  }

  ghost predicate Delivers(op: Op, e: Assembly, j: nat) {
    op.PushOp? && op.room == e.room && op.part.assemblyId == e.id && IsPiece(op.part, e, j)
  }

  /** `ks` are the run's pushes that delivered the pieces of `e`, in order; every
      well-formed push for the assembly since then repeated one of them. */
  ghost predicate MadeBy(ops: seq<Op>, e: Assembly, ks: seq<nat>) {
    && |ks| == |e.ends| > 0
    && (forall i, j :: 0 <= i < j < |ks| ==> ks[i] < ks[j])
    && (forall j :: 0 <= j < |ks| ==> ks[j] < |ops| && Delivers(ops[ks[j]], e, j))
    && e.lastActivity == ops[ks[|ks| - 1]].now
    && forall i :: ks[0] <= i < |ops| && ops[i].PushOp? && Targets(ops[i].room, ops[i].part, e) && ValidateHeader(ops[i].part).Ok?
         ==> exists j :: Delivers(ops[i], e, j)
  }

  lemma GrownDelivers(op: Op, e0: Assembly, piece: Bytes, now: int, j: nat)
    requires Partitioned(e0) && 0 < |piece| <= MAX_PART_BYTES && Delivers(op, e0, j)
    ensures Delivers(op, Extend(e0, piece, now), j)
  {
    ExtendPieces(e0, piece, now);
  }

  lemma MadeByGrown(ops: seq<Op>, op: Op, e0: Assembly, ks: seq<nat>, e: Assembly)
    requires MadeBy(ops, e0, ks) && EntryOk(e0)
    requires op.PushOp? && Targets(op.room, op.part, e0) && Delivers(op, e, |e0.ends|)
    requires Base64.FromBase64(op.part.data).Some?
    requires var piece := Base64.FromBase64(op.part.data).value;
             0 < |piece| <= MAX_PART_BYTES && e == Extend(e0, piece, op.now)
    ensures MadeBy(ops + [op], e, ks + [|ops|])
  {
    hide Partitioned, PieceOf;
    var piece := Base64.FromBase64(op.part.data).value;
    var ops', ks' := ops + [op], ks + [|ops|];
    forall j | 0 <= j < |ks'|
      ensures ks'[j] < |ops'| && Delivers(ops'[ks'[j]], e, j)
    {
      if j < |ks| {
        GrownDelivers(ops[ks[j]], e0, piece, op.now, j);
      }
    }
    forall i | ks'[0] <= i < |ops'| && ops'[i].PushOp? && Targets(ops'[i].room, ops'[i].part, e) && ValidateHeader(ops'[i].part).Ok?
      ensures exists j :: Delivers(ops'[i], e, j)
    {
      if i < |ops| {
        assert Targets(ops[i].room, ops[i].part, e0);
        var j :| Delivers(ops[i], e0, j);
        GrownDelivers(ops[i], e0, piece, op.now, j);
      }
    }
  }

  /** A later operation that does not contradict the entry changes nothing. */
  lemma MadeBySame(ops: seq<Op>, op: Op, e: Assembly, ks: seq<nat>)
    ensures MadeBy(ops, e, ks)
            && (op.PushOp? && Targets(op.room, op.part, e) && ValidateHeader(op.part).Ok? ==> exists j :: Delivers(op, e, j))
            ==> MadeBy(ops + [op], e, ks)
  {
    hide Delivers, ValidateHeader;
    if MadeBy(ops, e, ks)
       && (op.PushOp? && Targets(op.room, op.part, e) && ValidateHeader(op.part).Ok? ==> exists j :: Delivers(op, e, j)) {
      var ops' := ops + [op];
      assert forall j :: 0 <= j < |ks| ==> ops'[ks[j]] == ops[ks[j]];
      forall i | ks[0] <= i < |ops'| && ops'[i].PushOp? && Targets(ops'[i].room, ops'[i].part, e) && ValidateHeader(ops'[i].part).Ok?
        ensures exists j :: Delivers(ops'[i], e, j)
      {
        if i < |ops| {
          assert ops'[i] == ops[i];
        }
      }
    }
  }

  /** Every entry of every reachable table was made by in-order pushes. */
  lemma {:induction false} Provenance<M>(cfg: Config<M>, ops: seq<Op>, e: Assembly) returns (ks: seq<nat>)
    requires cfg.maxConcurrent > 0 && e in Run(cfg, ops)
    ensures MadeBy(ops, e, ks)
    ensures ops[|ops| - 1].ClearOp? || ks[|ks| - 1] == |ops| - 1 || Age(e, ops[|ops| - 1].now) < cfg.ttl
  {
    hide MadeBy, EntryOk, IsPiece, Push, Expire;
    var before, op := ops[..|ops| - 1], ops[|ops| - 1];
    var es := Run(cfg, before);
    assert ops == before + [op];
    match op
    case ClearOp =>
    case ExpireOp(now) =>
      ExpireMembers(es, cfg.ttl, now);
      ks := Provenance(cfg, before, e);
      MadeBySame(before, op, e, ks);
    case PushOp(room, p, now, granted) =>
      var how := PushOrigin(cfg, es, room, p, now, granted, e);
      match how
      case Untouched =>
        ks := Provenance(cfg, before, e);
        if Targets(room, p, e) && ValidateHeader(p).Ok? {
          var j :| IsPiece(p, e, j);
          assert Delivers(op, e, j);
        }
        MadeBySame(before, op, e, ks);
      case Grown(e0) =>
        ks := Provenance(cfg, before, e0);
        assert EntryOk(e0);
        GrownPiece(e0, Base64.FromBase64(p.data).value, now);
        assert Delivers(op, e, |e0.ends|);
        MadeByGrown(before, op, e0, ks, e);
        ks := ks + [|before|];
      case Begun =>
        ks := [|before|];
        assert Delivers(op, e, 0);
        MadeByFirst(before, op, e);
  }

  lemma ExpireMembers(es: seq<Assembly>, ttl: nat, now: int)
    ensures forall e :: e in Expire(Table(es, []), ttl, now).entries <==> e in es && Age(e, now) < ttl
  {
    KeptMembers(es, (e: Assembly) => Age(e, now) < ttl);
  }

  lemma GrownPiece(e0: Assembly, piece: Bytes, now: int)
    requires EntryOk(Extend(e0, piece, now)) && EntryOk(e0)
    ensures 0 < |piece| <= MAX_PART_BYTES
  {
    var e, n := Extend(e0, piece, now), |e0.ends|;
    assert Partitioned(e) && Partitioned(e0) && n > 0;
    hide EntryOk;
    assert Start(e, n) == e.ends[n - 1] == |e0.buf|;
    assert Start(e, n) < e.ends[n] <= Start(e, n) + MAX_PART_BYTES;
  }

  lemma MadeByFirst(ops: seq<Op>, op: Op, e: Assembly)
    requires Delivers(op, e, 0) && |e.ends| == 1 && e.lastActivity == op.now
    ensures MadeBy(ops + [op], e, [|ops|])
  {}

  // ----- the manifest that comes out -----

  /** The bytes that the given pushes carried, joined in order. */
  ghost function Joined(ops: seq<Op>, ks: seq<nat>): Bytes {
    if ks == [] then []
    else
      var k := ks[|ks| - 1];
      Joined(ops, ks[..|ks| - 1])
      + if k < |ops| && ops[k].PushOp? && Base64.FromBase64(ops[k].part.data).Some?
        then Base64.FromBase64(ops[k].part.data).value else []
  }

  lemma {:induction false} JoinedPrefix(ops: seq<Op>, e: Assembly, ks: seq<nat>, n: nat)
    requires n <= |ks| == |e.ends| && EndsOk(e)
    requires forall j :: 0 <= j < |ks| ==> ks[j] < |ops| && Delivers(ops[ks[j]], e, j)
    ensures Joined(ops, ks[..n]) == e.buf[..if n == 0 then 0 else e.ends[n - 1]]
  {
    hide SameHeader, Base64.FromBase64, Start, PieceOf, EndsOk;
    if n > 0 {
      JoinedPrefix(ops, e, ks, n - 1);
      assert ks[..n][..n - 1] == ks[..n - 1];
      assert Delivers(ops[ks[n - 1]], e, n - 1);
      PieceEnds(e, n - 1);
    }
  }

  lemma PieceEnds(e: Assembly, j: nat)
    requires EndsOk(e) && j < |e.ends|
    ensures Start(e, j) == (if j == 0 then 0 else e.ends[j - 1]) && Start(e, j) <= e.ends[j] <= |e.buf|
    ensures e.buf[..e.ends[j]] == e.buf[..Start(e, j)] + PieceOf(e, j)
  {}

  /** An assembly that a push has just completed. */
  ghost predicate Completed<M>(codec: Codec<M>, e: Assembly, done: Assembled<M>) {
    && Partitioned(e)
    && |e.ends| == e.total && |e.buf| == e.totalBytes
    && codec.sha256Hex(e.buf) == e.digest
    && codec.parse(e.buf) == Ok(done.manifest)
    && done == Assembled(e.room, e.kind, e.version, e.publishedAtMs, done.manifest)
  }

  lemma TakeCompletes<M>(codec: Codec<M>, e: Assembly, p: Part, piece: Bytes, now: int)
    requires Partitioned(e) && 0 < |piece| <= MAX_PART_BYTES
    requires ValidateHeader(p).Ok? && Base64.FromBase64(p.data) == Some(piece)
    requires TakePiece(codec, e, p, piece, now).1.Ok? && TakePiece(codec, e, p, piece, now).1.value.Some?
    ensures var e' := Extend(e, piece, now);
            && Completed(codec, e', TakePiece(codec, e, p, piece, now).1.value.value)
            && IsPiece(p, e', |e.ends|)
  {
    ExtendPieces(e, piece, now);
  }

  /** Safety: whatever hostile traffic came before, a returned manifest was
      decoded from the concatenation of pieces 0 .. total-1 of one (room, id),
      pushed in that order under one header, whose length and digest are the
      declared ones; the completing push is the last of them. */
  lemma ManifestIsWhatWasSent<M>(cfg: Config<M>, ops: seq<Op>, last: Op, done: Assembled<M>)
      returns (e: Assembly, ks: seq<nat>)
    requires cfg.maxConcurrent > 0 && last.PushOp?
    requires Push(cfg, Run(cfg, ops), last.room, last.part, last.now, last.granted).1 == Ok(Some(done))
    ensures MadeBy(ops + [last], e, ks) && |ks| == e.total && ks[|ks| - 1] == |ops|
    ensures Targets(last.room, last.part, e)
    ensures Completed(cfg.codec, e, done)
    ensures Joined(ops + [last], ks) == e.buf
  {
    hide MadeBy, TakePiece, EntryOk, IsPiece, Partitioned, Completed;
    var es := Run(cfg, ops);
    var p := last.part;
    FrontFacts(cfg.maxConcurrent, cfg.ttl, es, last.room, p, last.now);
    match PushFront(cfg.maxConcurrent, cfg.ttl, es, last.room, p, last.now)
    case Refused(t, err) =>
    case Known(t, pos, piece) =>
      var e0 := t.entries[pos];
      assert EntryOk(e0);
      EntryPartitioned(e0);
      TakeCompletes(cfg.codec, e0, p, piece, last.now);
      e := Extend(e0, piece, last.now);
      ks := Provenance(cfg, ops, e0);
      assert Delivers(last, e, |e0.ends|);
      MadeByGrown(ops, last, e0, ks, e);
      ks := ks + [|ops|];
      JoinAll(cfg.codec, ops + [last], e, ks, done);
    case Fresh(t, piece) =>
      var e0 := NewAssembly(last.room, p, last.now);
      EntryPartitioned(e0);
      TakeCompletes(cfg.codec, e0, p, piece, last.now);
      e := Extend(e0, piece, last.now);
      ks := [|ops|];
      assert Delivers(last, e, 0);
      MadeByFirst(ops, last, e);
      JoinAll(cfg.codec, ops + [last], e, ks, done);
  }

  lemma EntryPartitioned(e: Assembly)
    requires EntryOk(e) || (e.ends == [] && e.buf == [])
    ensures Partitioned(e)
  {}

  lemma JoinAll<M>(codec: Codec<M>, ops: seq<Op>, e: Assembly, ks: seq<nat>, done: Assembled<M>)
    requires MadeBy(ops, e, ks) && Completed(codec, e, done)
    ensures |ks| == e.total && Joined(ops, ks) == e.buf
  {
    hide Delivers, Start;
    JoinedPrefix(ops, e, ks, |ks|);
    assert ks[..|ks|] == ks;
    assert e.buf[..|e.buf|] == e.buf;
  }

  /** Expiry is by progress: an assembly whose last accepted piece is `ttl` old
      at some push or expiry does not survive it, whatever repeats arrived. */
  lemma StaleAssemblyIsGone<M>(cfg: Config<M>, ops: seq<Op>, op: Op, e: Assembly) returns (ks: seq<nat>)
    requires cfg.maxConcurrent > 0 && !op.ClearOp?
    requires e in Run(cfg, ops + [op])
    ensures MadeBy(ops + [op], e, ks)
    ensures var newest := ks[|ks| - 1];
            newest == |ops| || op.now - (ops + [op])[newest].now < cfg.ttl
  {
    var ops' := ops + [op];
    assert ops'[..|ops'| - 1] == ops;
    ks := Provenance(cfg, ops', e);
  }
}
