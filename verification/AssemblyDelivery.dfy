/** The transport end to end: split pieces pushed in order, with repeats and
    foreign traffic in between, give back exactly the bytes that were split;
    and what a refused push leaves behind. */
module AssemblyDelivery {
  import opened Wrappers
  import opened Words
  import opened ManifestParts
  import opened AssemblyTable
  import opened AssemblyRuns
  import opened AssemblySafety
  import Base64

  /** `parts` carry `bytes` in non-empty pieces under one valid header. */
  ghost predicate Carries<M>(codec: Codec<M>, parts: seq<Part>, pieces: seq<Bytes>, bytes: Bytes) {
    && 0 < |parts| == |pieces|
    && Concat(pieces) == bytes && |bytes| == parts[0].totalBytes && codec.sha256Hex(bytes) == parts[0].digest
    && parts[0].total == |parts|
    && forall i :: 0 <= i < |parts| ==>
         && parts[i] == parts[0].(index := i, data := parts[i].data)
         && ValidateHeader(parts[i]).Ok?
         && 0 < |pieces[i]| <= MAX_PART_BYTES
         && Base64.FromBase64(parts[i].data) == Some(pieces[i])
  }

  ghost predicate Ours(op: Op, room: Uuid, parts: seq<Part>)
    requires parts != []
  {
    op.PushOp? && op.room == room && op.part.assemblyId == parts[0].assemblyId
  }

  ghost predicate InTable(es: seq<Assembly>, room: Uuid, id: Uuid) {
    exists e :: e in es && e.room == room && e.id == id
  }

  /** From table `es` with `taken` pieces delivered, `ops` pushes the remaining
      pieces in order. Pieces already taken may be repeated and any other
      operation may come in between, as long as the budget grants the start and
      the assembly is neither expired, replaced nor evicted on the way. */
  ghost predicate Undisturbed<M>(cfg: Config<M>, es: seq<Assembly>, ops: seq<Op>, room: Uuid, parts: seq<Part>, taken: nat)
    requires cfg.maxConcurrent > 0 && Inv(cfg.maxConcurrent, es) && parts != []
    decreases |ops|
  {
    && ops != []
    && var op, next, id := ops[0], Apply(cfg, es, ops[0]), parts[0].assemblyId;
       if Ours(op, room, parts) then
         && (if taken == 0 then op.granted && !InTable(es, room, id)
             else exists e :: e in es && e.room == room && e.id == id && Age(e, op.now) < cfg.ttl)
         && if taken < |parts| && op.part == parts[taken] then
              if taken + 1 == |parts| then |ops| == 1 else Undisturbed(cfg, next, ops[1..], room, parts, taken + 1)
            else
              && (exists j :: 0 <= j < taken && j < |parts| && op.part == parts[j])
              && Undisturbed(cfg, next, ops[1..], room, parts, taken)
       else
         && InTable(next, room, id) == (taken > 0)
         && Undisturbed(cfg, next, ops[1..], room, parts, taken)
  }

  /** Our pushes answer "more expected" until the last operation, which answers `r`. */
  ghost predicate Answers<M>(cfg: Config<M>, es: seq<Assembly>, ops: seq<Op>, room: Uuid, parts: seq<Part>, r: PushResult<M>)
    requires cfg.maxConcurrent > 0 && Inv(cfg.maxConcurrent, es) && parts != []
    decreases |ops|
  {
    && ops != []
    && var op := ops[0];
       if |ops| == 1 then
         op.PushOp? && Push(cfg, es, op.room, op.part, op.now, op.granted).1 == r
       else
         && (Ours(op, room, parts) ==> Push(cfg, es, op.room, op.part, op.now, op.granted).1 == Ok(None))
         && Answers(cfg, Apply(cfg, es, op), ops[1..], room, parts, r)
  }

  /** The table entry once `taken` pieces arrived. */
  ghost predicate Holding(e: Assembly, room: Uuid, parts: seq<Part>, pieces: seq<Bytes>, taken: nat)
    requires 0 < |parts| == |pieces|
  {
    && e.room == room && e.id == parts[0].assemblyId && SameHeader(e, parts[0])
    && Partitioned(e)
    && taken == |e.ends| <= |parts|
    && e.buf == Concat(pieces[..taken])
    && forall j :: 0 <= j < taken ==> PieceOf(e, j) == pieces[j]
  }

  /** The answer to the last piece of `bytes`. */
  function Decoded<M>(codec: Codec<M>, room: Uuid, kind: Kind, version: i64, publishedAtMs: i64, bytes: Bytes): PushResult<M> {
    match codec.parse(bytes)
    case Ok(m) => Ok(Some(Assembled(room, kind, version, publishedAtMs, m)))
    case Err(message) => Err(BadManifest(message))
  }

  ghost function Expected<M>(codec: Codec<M>, room: Uuid, parts: seq<Part>, bytes: Bytes): PushResult<M>
    requires parts != []
  {
    Decoded(codec, room, parts[0].kind, parts[0].version, parts[0].publishedAtMs, bytes)
  }

  lemma {:induction false} ConcatPrefixLength(pieces: seq<Bytes>, n: nat)
    requires n <= |pieces|
    ensures |Concat(pieces[..n])| <= |Concat(pieces)|
  {
    if n < |pieces| {
      ConcatPrefixLength(pieces[..|pieces| - 1], n);
      assert pieces[..|pieces| - 1][..n] == pieces[..n];
    } else {
      assert pieces[..n] == pieces;
    }
  }

  lemma ConcatNext(pieces: seq<Bytes>, n: nat)
    requires n < |pieces|
    ensures Concat(pieces[..n + 1]) == Concat(pieces[..n]) + pieces[n]
    ensures |Concat(pieces[..n])| + |pieces[n]| <= |Concat(pieces)|
  {
    assert pieces[..n + 1][..n] == pieces[..n];
    ConcatPrefixLength(pieces, n + 1);
  }

  /** Taking the next piece. */
  lemma TakeNext<M>(codec: Codec<M>, e: Assembly, room: Uuid, parts: seq<Part>, pieces: seq<Bytes>, bytes: Bytes, now: int)
    requires Carries(codec, parts, pieces, bytes)
    requires |e.ends| < |parts| && Holding(e, room, parts, pieces, |e.ends|)
    ensures var t := |e.ends|;
            var (e', r) := TakePiece(codec, e, parts[t], pieces[t], now);
            if t + 1 < |parts| then r == Ok(None) && Holding(e', room, parts, pieces, t + 1) && e'.lastActivity == now
            else r == Expected(codec, room, parts, bytes)
  {
    hide ValidateHeader, Base64.FromBase64, Partitioned, PieceOf, Concat;
    var t := |e.ends|;
    assert parts[t] == parts[0].(index := t, data := parts[t].data);
    assert SameHeader(e, parts[t]);
    ExtendPieces(e, pieces[t], now);
    ConcatNext(pieces, t);
    if t + 1 == |parts| {
      assert pieces[..t + 1] == pieces;
    }
  }

  lemma FindUnique(es: seq<Assembly>, e: Assembly)
    requires Distinct(es) && e in es
    ensures var r := Find(es, e.room, e.id); r.Some? && es[r.value] == e
    ensures forall x :: x in es && x.room == e.room && x.id == e.id ==> x == e
  {
    forall x | x in es && x.room == e.room && x.id == e.id
      ensures x == e
    {
      var i :| 0 <= i < |es| && es[i] == x;
      var j :| 0 <= j < |es| && es[j] == e;
    }
  }

  /** A push of ours finds our live entry. */
  lemma FrontFinds<M>(cfg: Config<M>, es: seq<Assembly>, room: Uuid, p: Part, now: int, e: Assembly)
    requires cfg.maxConcurrent > 0 && Inv(cfg.maxConcurrent, es)
    requires e in es && Targets(room, p, e) && Age(e, now) < cfg.ttl
    requires ValidateHeader(p).Ok? && Base64.FromBase64(p.data).Some? && |Base64.FromBase64(p.data).value| <= MAX_PART_BYTES
    ensures var f := PushFront(cfg.maxConcurrent, cfg.ttl, es, room, p, now);
            f.Known? && f.table.entries[f.pos] == e && Some(f.piece) == Base64.FromBase64(p.data)
  {
    hide ValidateHeader, EntryOk, MakeRoom;
    EncodedBound(p.data);
    ExpireMembers(es, cfg.ttl, now);
    KeptDistinct(es, (e: Assembly) => Age(e, now) < cfg.ttl);
    FindUnique(Expire(Table(es, []), cfg.ttl, now).entries, e);
  }

  lemma EncodedBound(data: string)
    requires Base64.FromBase64(data).Some? && |Base64.FromBase64(data).value| <= MAX_PART_BYTES
    ensures |data| <= CeilDiv(MAX_PART_BYTES, 3) * 4
  {
    hide Base64.Encode, Base64.Decode;
    var b := Base64.FromBase64(data).value;
    Base64.Bijection(b, data);
    Base64.EncodedLength(b);
  }

  lemma OursInOrder<M>(cfg: Config<M>, es: seq<Assembly>, op: Op, room: Uuid, parts: seq<Part>, pieces: seq<Bytes>, bytes: Bytes,
                       e: Assembly)
      returns (e': Assembly)
    requires cfg.maxConcurrent > 0 && Inv(cfg.maxConcurrent, es)
    requires Carries(cfg.codec, parts, pieces, bytes) && Ours(op, room, parts)
    requires e in es && |e.ends| < |parts| && Holding(e, room, parts, pieces, |e.ends|) && Age(e, op.now) < cfg.ttl
    requires op.part == parts[|e.ends|]
    ensures var (t, r) := Push(cfg, es, room, op.part, op.now, op.granted);
            if |e.ends| + 1 < |parts| then
              r == Ok(None) && e' in t.entries && Holding(e', room, parts, pieces, |e.ends| + 1) && e'.lastActivity == op.now
            else r == Expected(cfg.codec, room, parts, bytes)
  {
    assert EndsOk(e);
    hide ValidateHeader, Base64.FromBase64, Partitioned, PieceOf, Concat, PushFront, Expected, TakePiece;
    var n := |e.ends|;
    assert Base64.FromBase64(parts[n].data) == Some(pieces[n]);
    FrontFinds(cfg, es, room, op.part, op.now, e);
    TakeNext(cfg.codec, e, room, parts, pieces, bytes, op.now);
    e' := TakePiece(cfg.codec, e, op.part, pieces[n], op.now).0;
    var f := PushFront(cfg.maxConcurrent, cfg.ttl, es, room, op.part, op.now);
    assert f.table.entries[f.pos := e'][f.pos] == e';
    ExpectedIsFinal(cfg.codec, room, parts, bytes);
  }

  lemma ExpectedIsFinal<M>(codec: Codec<M>, room: Uuid, parts: seq<Part>, bytes: Bytes)
    requires parts != []
    ensures Expected(codec, room, parts, bytes) != Ok(None)
  {}

  lemma OursRepeated<M>(cfg: Config<M>, es: seq<Assembly>, op: Op, room: Uuid, parts: seq<Part>, pieces: seq<Bytes>, bytes: Bytes,
                        e: Assembly, j: nat)
    requires cfg.maxConcurrent > 0 && Inv(cfg.maxConcurrent, es)
    requires Carries(cfg.codec, parts, pieces, bytes) && Ours(op, room, parts)
    requires e in es && j < |e.ends| <= |parts| && Holding(e, room, parts, pieces, |e.ends|) && Age(e, op.now) < cfg.ttl
    requires op.part == parts[j]
    ensures var (t, r) := Push(cfg, es, room, op.part, op.now, op.granted);
            r == Ok(None) && e in t.entries
  {
    hide ValidateHeader, Base64.FromBase64, Concat, PushFront, PieceOf;
    assert Base64.FromBase64(parts[j].data) == Some(pieces[j]);
    assert parts[j] == parts[0].(index := j, data := parts[j].data);
    FrontFinds(cfg, es, room, op.part, op.now, e);
    var f := PushFront(cfg.maxConcurrent, cfg.ttl, es, room, op.part, op.now);
    assert f.table.entries[f.pos := e] == f.table.entries;
  }

  /** The first piece finds no entry of its id and gets to start one. */
  lemma FirstFront(max: nat, ttl: nat, es: seq<Assembly>, room: Uuid, p: Part, piece: Bytes, now: int)
    requires max > 0 && ValidateHeader(p).Ok? && p.index == 0
    requires Base64.FromBase64(p.data) == Some(piece) && |piece| <= MAX_PART_BYTES
    requires forall e :: e in es && Age(e, now) < ttl ==> !(e.room == room && e.id == p.assemblyId)
    ensures PushFront(max, ttl, es, room, p, now)
            == Fresh(MakeRoom(Expire(Table(es, []), ttl, now), room, p.kind, max), piece)
  {
    hide ValidateHeader, Base64.FromBase64, MakeRoom, Kept, Dropped;
    EncodedBound(p.data);
    KeptMembers(es, (e: Assembly) => Age(e, now) < ttl);
    assert Find(Expire(Table(es, []), ttl, now).entries, room, p.assemblyId).None?;
  }

  lemma PushFresh<M>(cfg: Config<M>, es: seq<Assembly>, room: Uuid, p: Part, now: int, t: Table, piece: Bytes)
    requires cfg.maxConcurrent > 0 && Inv(cfg.maxConcurrent, es)
    requires PushFront(cfg.maxConcurrent, cfg.ttl, es, room, p, now) == Fresh(t, piece)
    ensures Push(cfg, es, room, p, now, true) == Begin(cfg.codec, t, room, p, piece, now)
  {
    hide PushFront, Begin, EntryOk;
  }

  /** Starting with the first of our pieces. */
  lemma BeginFirst<M>(codec: Codec<M>, t: Table, room: Uuid, parts: seq<Part>, pieces: seq<Bytes>, bytes: Bytes, now: int)
      returns (e': Assembly)
    requires Carries(codec, parts, pieces, bytes)
    ensures var (t', r) := Begin(codec, t, room, parts[0], pieces[0], now);
            if 1 < |parts| then
              r == Ok(None) && e' in t'.entries && Holding(e', room, parts, pieces, 1) && e'.lastActivity == now
            else r == Expected(codec, room, parts, bytes)
  {
    hide ValidateHeader, Base64.FromBase64, Expected, TakePiece;
    var e := NewAssembly(room, parts[0], now);
    assert parts[0].index == 0 && pieces[..0] == [];
    TakeNext(codec, e, room, parts, pieces, bytes, now);
    ExpectedIsFinal(codec, room, parts, bytes);
    e' := TakePiece(codec, e, parts[0], pieces[0], now).0;
    var es := t.entries + [e];
    assert es[|t.entries|] == e && es[|t.entries| := e'][|t.entries|] == e';
  }

  lemma FirstPiece<M>(codec: Codec<M>, parts: seq<Part>, pieces: seq<Bytes>, bytes: Bytes)
    requires Carries(codec, parts, pieces, bytes)
    ensures ValidateHeader(parts[0]).Ok? && parts[0].index == 0
    ensures Base64.FromBase64(parts[0].data) == Some(pieces[0]) && |pieces[0]| <= MAX_PART_BYTES
  {
    hide ValidateHeader, Base64.FromBase64, Concat;
  }

  /** An operation that is not ours leaves our entry alone or removes it. */
  lemma OthersSpare<M>(cfg: Config<M>, es: seq<Assembly>, op: Op, room: Uuid, parts: seq<Part>, e: Assembly)
    requires cfg.maxConcurrent > 0 && Inv(cfg.maxConcurrent, es) && parts != []
    requires !Ours(op, room, parts) && e in es && e.room == room && e.id == parts[0].assemblyId
    requires InTable(Apply(cfg, es, op), room, parts[0].assemblyId)
    ensures e in Apply(cfg, es, op)
  {
    hide Push, EntryOk, IsPiece;
    var x :| x in Apply(cfg, es, op) && x.room == room && x.id == parts[0].assemblyId;
    FindUnique(es, e);
    match op
    case ClearOp =>
    case ExpireOp(now) => ExpireMembers(es, cfg.ttl, now);
    case PushOp(r, p, now, granted) =>
      var how := PushOrigin(cfg, es, r, p, now, granted, x);
  }

  /** Reliable delivery, from any reachable table. */
  lemma {:induction false} Delivery<M>(cfg: Config<M>, es: seq<Assembly>, ops: seq<Op>, room: Uuid,
                                       parts: seq<Part>, pieces: seq<Bytes>, bytes: Bytes, taken: nat, e: Assembly)
    requires cfg.maxConcurrent > 0 && Inv(cfg.maxConcurrent, es)
    requires Carries(cfg.codec, parts, pieces, bytes)
    requires taken < |parts| && Undisturbed(cfg, es, ops, room, parts, taken)
    requires taken > 0 ==> e in es && Holding(e, room, parts, pieces, taken)
    requires taken == 0 ==> !InTable(es, room, parts[0].assemblyId)
    ensures Answers(cfg, es, ops, room, parts, Expected(cfg.codec, room, parts, bytes))
    decreases |ops|
  {
    hide Push, PushFront, Begin, MakeRoom, Expire, Expected, Holding, Partitioned, EntryOk, ValidateHeader, Base64.FromBase64, Concat;
    var op := ops[0];
    var next := Apply(cfg, es, op);
    if Ours(op, room, parts) {
      if taken > 0 {
        HoldingCount(e, room, parts, pieces, taken);
        FindUnique(es, e);
      }
      if op.part == parts[taken] {
        var e' := e;
        if taken == 0 {
          FirstPiece(cfg.codec, parts, pieces, bytes);
          FirstFront(cfg.maxConcurrent, cfg.ttl, es, room, op.part, pieces[0], op.now);
          var made := MakeRoom(Expire(Table(es, []), cfg.ttl, op.now), room, op.part.kind, cfg.maxConcurrent);
          PushFresh(cfg, es, room, op.part, op.now, made, pieces[0]);
          e' := BeginFirst(cfg.codec, made, room, parts, pieces, bytes, op.now);
        } else {
          e' := OursInOrder(cfg, es, op, room, parts, pieces, bytes, e);
        }
        if taken + 1 < |parts| {
          Delivery(cfg, next, ops[1..], room, parts, pieces, bytes, taken + 1, e');
        }
      } else {
        var j :| 0 <= j < taken && op.part == parts[j];
        OursRepeated(cfg, es, op, room, parts, pieces, bytes, e, j);
        Delivery(cfg, next, ops[1..], room, parts, pieces, bytes, taken, e);
      }
    } else {
      if taken > 0 {
        HoldingCount(e, room, parts, pieces, taken);
        OthersSpare(cfg, es, op, room, parts, e);
      }
      Delivery(cfg, next, ops[1..], room, parts, pieces, bytes, taken, e);
    }
  }

  lemma HoldingCount(e: Assembly, room: Uuid, parts: seq<Part>, pieces: seq<Bytes>, taken: nat)
    requires 0 < |parts| == |pieces| && Holding(e, room, parts, pieces, taken)
    ensures |e.ends| == taken && e.room == room && e.id == parts[0].assemblyId
  {}

  /** What a sender splits with a legal header for a frame cap. */
  lemma SplitCarries<M>(codec: Codec<M>, bytes: Bytes, kind: Kind, version: i64, publishedAtMs: i64, id: Uuid, frameCap: nat)
    requires HexDigests(codec) && PartSizeForFrameCap(frameCap).Ok? && 0 < |bytes| <= MAX_ASSEMBLED_BYTES
    requires kind == Publish ==> version == 0 && publishedAtMs == 0
    ensures PartSizeForFrameCap(frameCap).value > 0
    ensures var size := PartSizeForFrameCap(frameCap).value;
            var split := SplitManifestBytes(codec.sha256Hex, bytes, kind, version, publishedAtMs, id, size);
            && split.Ok? && Carries(codec, split.value, Chunks(bytes, size), bytes)
            && split.value[0].assemblyId == id && split.value[0].kind == kind
            && split.value[0].version == version && split.value[0].publishedAtMs == publishedAtMs
  {
    hide ValidateHeader, Base64.FromBase64, PartSizeForFrameCap;
    var size := PartSizeForFrameCap(frameCap).value;
    PartSizeFits(frameCap, []);
    SplitForFrameCap(codec.sha256Hex, bytes, kind, version, publishedAtMs, id, frameCap);
    SplitPieces(codec.sha256Hex, bytes, kind, version, publishedAtMs, id, size);
    ChunksRejoin(bytes, size);
    ChunksCount(bytes, size);
    var parts := SplitManifestBytes(codec.sha256Hex, bytes, kind, version, publishedAtMs, id, size).value;
    assert parts[0].digest == codec.sha256Hex(bytes);
  }

  /** End to end: whatever a sender splits with a legal header, a receiver that
      is not disturbed decodes from exactly the original bytes, and no earlier. */
  lemma RoundTrip<M>(cfg: Config<M>, es: seq<Assembly>, ops: seq<Op>, room: Uuid, bytes: Bytes, kind: Kind,
                     version: i64, publishedAtMs: i64, id: Uuid, frameCap: nat)
    requires cfg.maxConcurrent > 0 && Inv(cfg.maxConcurrent, es) && HexDigests(cfg.codec)
    requires PartSizeForFrameCap(frameCap).Ok? && 0 < |bytes| <= MAX_ASSEMBLED_BYTES
    requires kind == Publish ==> version == 0 && publishedAtMs == 0
    requires !InTable(es, room, id)
    ensures var split := SplitManifestBytes(cfg.codec.sha256Hex, bytes, kind, version, publishedAtMs, id, PartSizeForFrameCap(frameCap).value);
            && split.Ok? && split.value != []
            && (Undisturbed(cfg, es, ops, room, split.value, 0) ==>
                  Answers(cfg, es, ops, room, split.value, Decoded(cfg.codec, room, kind, version, publishedAtMs, bytes)))
  {
    hide Undisturbed, Answers, Push, ValidateHeader, Base64.FromBase64, PartSizeForFrameCap, SplitManifestBytes, Inv;
    SplitCarries(cfg.codec, bytes, kind, version, publishedAtMs, id, frameCap);
    var size := PartSizeForFrameCap(frameCap).value;
    var parts := SplitManifestBytes(cfg.codec.sha256Hex, bytes, kind, version, publishedAtMs, id, size).value;
    if Undisturbed(cfg, es, ops, room, parts, 0) {
      Delivery(cfg, es, ops, room, parts, Chunks(bytes, size), bytes, 0, NewAssembly(room, parts[0], 0));
    }
  }

  /** What a refused push leaves behind. The source's comment says that an error
      drops the assembly the piece belonged to; that holds exactly when the
      header was valid or there was no live assembly to drop. */
  lemma RefusedPush<M>(cfg: Config<M>, es: seq<Assembly>, room: Uuid, p: Part, now: int, granted: bool)
    requires cfg.maxConcurrent > 0 && Inv(cfg.maxConcurrent, es)
    requires Push(cfg, es, room, p, now, granted).1.Err?
    ensures InTable(Push(cfg, es, room, p, now, granted).0.entries, room, p.assemblyId)
            <==> ValidateHeader(p).Err? && exists e :: e in es && Targets(room, p, e) && Age(e, now) < cfg.ttl
  {
    hide TakePiece, EntryOk, ValidateHeader, Base64.FromBase64, MakeRoom;
    FrontFacts(cfg.maxConcurrent, cfg.ttl, es, room, p, now);
    ExpireMembers(es, cfg.ttl, now);
    match PushFront(cfg.maxConcurrent, cfg.ttl, es, room, p, now)
    case Refused(t, err) =>
    case Known(t, pos, piece) =>
      assert EntryOk(t.entries[pos]);
      EntryPartitioned(t.entries[pos]);
      TakeRefused(cfg.codec, t, pos, room, p, piece, now);
    case Fresh(t, piece) =>
      if granted {
        var begun := NewAssembly(room, p, now);
        var t' := t.(entries := t.entries + [begun]);
        assert t'.entries[|t.entries|] == begun;
        EntryPartitioned(begun);
        TakeRefused(cfg.codec, t', |t.entries|, room, p, piece, now);
      }
  }

  lemma TakeRefused<M>(codec: Codec<M>, t: Table, pos: nat, room: Uuid, p: Part, piece: Bytes, now: int)
    requires pos < |t.entries| && Distinct(t.entries) && Targets(room, p, t.entries[pos]) && Partitioned(t.entries[pos])
    requires Take(codec, t, pos, p, piece, now).1.Err?
    ensures !InTable(Take(codec, t, pos, p, piece, now).0.entries, room, p.assemblyId)
  {
    var e := TakePiece(codec, t.entries[pos], p, piece, now).0;
    ReplacedDistinct(t.entries, pos, e);
    SwapRemovedDistinct(t.entries[pos := e], pos);
  }
}
