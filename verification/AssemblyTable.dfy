/** The table of assemblies in flight and every transition of `PartAssembler`
    (shared/protocol/src/manifest_parts.rs:254-488) as a function on it.
    Dropping an entry drops its budget reservation, so every transition also
    lists the byte counts it gives back. */
module AssemblyTable {
  import opened Wrappers
  import opened Words
  import opened ManifestParts
  import Base64

  datatype Assembly = Assembly(
    room: Uuid, id: Uuid, kind: Kind, total: u32, totalBytes: u32, digest: string,
    version: i64, publishedAtMs: i64, ends: seq<nat>, buf: Bytes, lastActivity: int)

  datatype Table = Table(entries: seq<Assembly>, freed: seq<nat>)

  datatype Assembled<+M> = Assembled(room: Uuid, kind: Kind, version: i64, publishedAtMs: i64, manifest: M)

  /** What one `push` returns. */
  type PushResult<+M> = Result<Option<Assembled<M>>, PartError>

  datatype Config<!M> = Config(maxConcurrent: nat, ttl: nat, codec: Codec<M>)

  function Sum(ns: seq<nat>): nat {
    if ns == [] then 0 else Sum(ns[..|ns| - 1]) + ns[|ns| - 1]
  }

  /** The bytes the entries of a table have reserved. */
  function Held(es: seq<Assembly>): nat {
    if es == [] then 0 else Held(es[..|es| - 1]) + es[|es| - 1].totalBytes
  }

  // ----- Vec::retain and Vec::swap_remove -----

  function Kept(es: seq<Assembly>, keep: Assembly -> bool): seq<Assembly> {
    if es == [] then []
    else Kept(es[..|es| - 1], keep) + if keep(es[|es| - 1]) then [es[|es| - 1]] else []
  }

  function Dropped(es: seq<Assembly>, keep: Assembly -> bool): seq<nat> {
    if es == [] then []
    else Dropped(es[..|es| - 1], keep) + if keep(es[|es| - 1]) then [] else [es[|es| - 1].totalBytes]
  }

  function Retain(t: Table, keep: Assembly -> bool): Table {
    Table(Kept(t.entries, keep), t.freed + Dropped(t.entries, keep))
  }

  function SwapRemoved(es: seq<Assembly>, i: nat): seq<Assembly>
    requires i < |es|
  {
    es[i := es[|es| - 1]][..|es| - 1]
  }

  function SwapRemove(t: Table, i: nat): Table
    requires i < |t.entries|
  {
    Table(SwapRemoved(t.entries, i), t.freed + [t.entries[i].totalBytes])
  }

  // ----- the transitions -----

  function Age(e: Assembly, now: int): nat {
    if now > e.lastActivity then now - e.lastActivity else 0
  }

  function Expire(t: Table, ttl: nat, now: int): Table {
    Retain(t, (e: Assembly) => Age(e, now) < ttl)
  }

  function DropAssembly(t: Table, room: Uuid, id: Uuid): Table {
    Retain(t, (e: Assembly) => !(e.room == room && e.id == id))
  }

  /** First position with the key, as `Iterator::position` finds it. */
  function Find(es: seq<Assembly>, room: Uuid, id: Uuid): (r: Option<nat>)
    ensures r.Some? ==> r.value < |es| && es[r.value].room == room && es[r.value].id == id
    ensures r.None? ==> forall e :: e in es ==> !(e.room == room && e.id == id)
    ensures r.Some? ==> forall i :: 0 <= i < r.value ==> !(es[i].room == room && es[i].id == id)
  {
    if es == [] then None
    else
      var n := |es| - 1;
      var r := Find(es[..n], room, id);
      if r.Some? then r else if es[n].room == room && es[n].id == id then Some(n) else None
  }

  /** First position with the least `lastActivity`, as `min_by_key` finds it. */
  function Oldest(es: seq<Assembly>): (i: nat)
    requires es != []
    ensures i < |es|
    ensures forall j :: 0 <= j < |es| ==> es[i].lastActivity <= es[j].lastActivity
    ensures forall j :: 0 <= j < i ==> es[i].lastActivity < es[j].lastActivity
  {
    var n := |es| - 1;
    if n == 0 then 0
    else
      var i := Oldest(es[..n]);
      if es[n].lastActivity < es[i].lastActivity then n else i
  }

  /** Evict the stalest assemblies until one more fits. */
  function Evict(t: Table, max: nat): Table
    requires max > 0
    decreases |t.entries|
  {
    if |t.entries| < max then t else Evict(SwapRemove(t, Oldest(t.entries)), max)
  }

  function MakeRoom(t: Table, room: Uuid, kind: Kind, max: nat): Table
    requires max > 0
  {
    Evict(Retain(t, (e: Assembly) => !(e.room == room && e.kind == kind)), max)
  }

  function NewAssembly(room: Uuid, p: Part, now: int): Assembly {
    Assembly(room, p.assemblyId, p.kind, p.total, p.totalBytes, p.digest, p.version, p.publishedAtMs, [], [], now)
  }

  predicate SameHeader(e: Assembly, p: Part) {
    && e.kind == p.kind && e.total == p.total && e.totalBytes == p.totalBytes
    && e.digest == p.digest && e.version == p.version && e.publishedAtMs == p.publishedAtMs
  }

  function Start(e: Assembly, j: nat): nat
    requires j < |e.ends|
  {
    if j == 0 then 0 else e.ends[j - 1]
  }

  predicate EndsOk(e: Assembly) {
    forall j :: 0 <= j < |e.ends| ==> Start(e, j) <= e.ends[j] <= |e.buf|
  }

  /** The bytes of piece `j`. */
  function PieceOf(e: Assembly, j: nat): Bytes
    requires EndsOk(e) && j < |e.ends|
  {
    e.buf[Start(e, j)..e.ends[j]]
  }

  function Extend(e: Assembly, piece: Bytes, now: int): Assembly {
    e.(buf := e.buf + piece, ends := e.ends + [|e.buf| + |piece|], lastActivity := now)
  }

  function Finish<M>(codec: Codec<M>, e: Assembly): (r: PushResult<M>)
    ensures r != Ok(None)
  {
    if |e.buf| != e.totalBytes then Err(LengthMismatch)
    else if codec.sha256Hex(e.buf) != e.digest then Err(DigestMismatch)
    else match codec.parse(e.buf)
      case Err(message) => Err(BadManifest(message))
      case Ok(m) => Ok(Some(Assembled(e.room, e.kind, e.version, e.publishedAtMs, m)))
  }

  function TakePiece<M>(codec: Codec<M>, e: Assembly, p: Part, piece: Bytes, now: int): (Assembly, PushResult<M>)
    requires EndsOk(e)
  {
    if !SameHeader(e, p) then (e, Err(BadHeader(HeaderChanged)))
    else if p.index < |e.ends| then
      if PieceOf(e, p.index) == piece then (e, Ok(None)) else (e, Err(Conflict(p.index)))
    else if p.index != |e.ends| then (e, Err(OutOfOrder(|e.ends|, p.index)))
    else if |e.buf| + |piece| > e.totalBytes then (e, Err(LengthMismatch))
    else
      var e' := Extend(e, piece, now);
      if p.index + 1 < e.total then (e', Ok(None)) else (e', Finish(codec, e'))
  }

  function Take<M>(codec: Codec<M>, t: Table, pos: nat, p: Part, piece: Bytes, now: int): (Table, PushResult<M>)
    requires pos < |t.entries| && EndsOk(t.entries[pos])
  {
    var (e, r) := TakePiece(codec, t.entries[pos], p, piece, now);
    var t' := t.(entries := t.entries[pos := e]);
    if r == Ok(None) then (t', r) else (SwapRemove(t', pos), r)
  }

  /** How far a push gets without the shared budget. */
  datatype Front =
    | Refused(table: Table, error: PartError)
    | Known(table: Table, pos: nat, piece: Bytes)
    | Fresh(table: Table, piece: Bytes)

  function PushFront(max: nat, ttl: nat, es: seq<Assembly>, room: Uuid, p: Part, now: int): (f: Front)
    requires max > 0
    ensures f.Known? ==> f.pos < |f.table.entries|
  {
    var t := Expire(Table(es, []), ttl, now);
    match ValidateHeader(p)
    case Err(e) => Refused(t, e)
    case Ok(_) =>
      if |p.data| > CeilDiv(MAX_PART_BYTES, 3) * 4 then
        Refused(DropAssembly(t, room, p.assemblyId), BadPiece(p.index))
      else match Base64.FromBase64(p.data)
        case None => Refused(DropAssembly(t, room, p.assemblyId), BadPiece(p.index))
        case Some(piece) =>
          if |piece| > MAX_PART_BYTES then Refused(DropAssembly(t, room, p.assemblyId), BadPiece(p.index))
          else match Find(t.entries, room, p.assemblyId)
            case Some(pos) => Known(t, pos, piece)
            case None =>
              if p.index != 0 then Refused(t, OutOfOrder(0, p.index))
              else Fresh(MakeRoom(t, room, p.kind, max), piece)
  }

  /** The rest of a push that was granted its reservation. */
  function Begin<M>(codec: Codec<M>, t: Table, room: Uuid, p: Part, piece: Bytes, now: int): (Table, PushResult<M>) {
    Take(codec, t.(entries := t.entries + [NewAssembly(room, p, now)]), |t.entries|, p, piece, now)
  }

  /** A whole push; `granted` is the answer of the shared budget, if asked. */
  function Push<M>(cfg: Config<M>, es: seq<Assembly>, room: Uuid, p: Part, now: int, granted: bool): (Table, PushResult<M>)
    requires cfg.maxConcurrent > 0 && forall e :: e in es ==> EndsOk(e)
  {
    FrontOrigin(cfg.maxConcurrent, cfg.ttl, es, room, p, now);
    match PushFront(cfg.maxConcurrent, cfg.ttl, es, room, p, now)
    case Refused(t, e) => (t, Err(e))
    case Known(t, pos, piece) => Take(cfg.codec, t, pos, p, piece, now)
    case Fresh(t, piece) => if granted then Begin(cfg.codec, t, room, p, piece, now) else (t, Err(BudgetExhausted))
  }

  // ----- facts about retain, swap_remove and eviction -----

  lemma {:induction false} KeptMembers(es: seq<Assembly>, keep: Assembly -> bool)
    ensures forall e :: e in Kept(es, keep) <==> e in es && keep(e)
    ensures |Kept(es, keep)| <= |es|
  {
    if es != [] {
      KeptMembers(es[..|es| - 1], keep);
      assert es == es[..|es| - 1] + [es[|es| - 1]];
    }
  }

  lemma SwapRemovedMembers(es: seq<Assembly>, i: nat)
    requires i < |es|
    ensures forall e :: e in SwapRemoved(es, i) ==> e in es
    ensures forall e :: e in es && e != es[i] ==> e in SwapRemoved(es, i)
  {
    var r := SwapRemoved(es, i);
    forall e | e in es && e != es[i]
      ensures e in r
    {
      var j :| 0 <= j < |es| && es[j] == e;
      assert r[if j == |es| - 1 then i else j] == e;
    }
  }

  lemma {:induction false} EvictMembers(t: Table, max: nat)
    requires max > 0
    ensures |Evict(t, max).entries| < max
    ensures forall e :: e in Evict(t, max).entries ==> e in t.entries
    ensures |t.entries| < max ==> Evict(t, max) == t
    decreases |t.entries|
  {
    if |t.entries| >= max {
      var i := Oldest(t.entries);
      SwapRemovedMembers(t.entries, i);
      EvictMembers(SwapRemove(t, i), max);
    }
  }

  lemma FrontOrigin(max: nat, ttl: nat, es: seq<Assembly>, room: Uuid, p: Part, now: int)
    requires max > 0
    ensures forall e :: e in PushFront(max, ttl, es, room, p, now).table.entries ==> e in es && Age(e, now) < ttl
  {
    hide Kept, Dropped, Evict, Age, Find, ValidateHeader, Base64.FromBase64, CeilDiv;
    var t := Expire(Table(es, []), ttl, now);
    KeptMembers(es, (e: Assembly) => Age(e, now) < ttl);
    KeptMembers(t.entries, (e: Assembly) => !(e.room == room && e.id == p.assemblyId));
    var byKind := (e: Assembly) => !(e.room == room && e.kind == p.kind);
    KeptMembers(t.entries, byKind);
    EvictMembers(Retain(t, byKind), max);
  }
}
