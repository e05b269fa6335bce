/** What holds in every run of pushes, expiries and clears with arbitrary
    pieces: table invariants, provenance of every byte held, and safety of
    every manifest returned (shared/protocol/src/manifest_parts.rs:266-488). */
module AssemblyRuns {
  import opened Wrappers
  import opened Words
  import opened ManifestParts
  import opened AssemblyTable
  import Base64

  // ----- the table invariant -----

  /** `ends` partitions `buf` into pieces of legal size. */
  ghost predicate Partitioned(e: Assembly) {
    && EndsOk(e)
    && (if e.ends == [] then e.buf == [] else e.ends[|e.ends| - 1] == |e.buf|)
    && forall j :: 0 <= j < |e.ends| ==> Start(e, j) < e.ends[j] <= Start(e, j) + MAX_PART_BYTES
  }

  ghost predicate EntryOk(e: Assembly) {
    && Partitioned(e)
    && 0 < |e.ends| < e.total <= MAX_PARTS
    && |e.buf| <= e.totalBytes
    && e.total <= e.totalBytes <= MAX_ASSEMBLED_BYTES
  }

  /** Entries differ in (room, id) and in (room, kind). */
  ghost predicate Apart(a: Assembly, b: Assembly) {
    a.room != b.room || (a.id != b.id && a.kind != b.kind)
  }

  ghost predicate Distinct(es: seq<Assembly>) {
    forall i, j :: 0 <= i < j < |es| ==> Apart(es[i], es[j])
  }

  ghost predicate Inv(max: nat, es: seq<Assembly>) {
    && |es| <= max
    && Distinct(es)
    && forall e :: e in es ==> EntryOk(e)
  }

  lemma {:induction false} KeptDistinct(es: seq<Assembly>, keep: Assembly -> bool)
    requires Distinct(es)
    ensures Distinct(Kept(es, keep))
  {
    if es != [] {
      var n := |es| - 1;
      KeptDistinct(es[..n], keep);
      KeptMembers(es[..n], keep);
      forall x | x in Kept(es[..n], keep)
        ensures Apart(x, es[n])
      {
        var i :| 0 <= i < n && es[i] == x;
      }
    }
  }

  lemma SwapRemovedDistinct(es: seq<Assembly>, i: nat)
    requires i < |es| && Distinct(es)
    ensures Distinct(SwapRemoved(es, i))
    ensures forall e :: e in SwapRemoved(es, i) ==> Apart(e, es[i])
  {}

  lemma {:induction false} EvictDistinct(t: Table, max: nat)
    requires max > 0 && Distinct(t.entries)
    ensures Distinct(Evict(t, max).entries)
    decreases |t.entries|
  {
    if |t.entries| >= max {
      SwapRemovedDistinct(t.entries, Oldest(t.entries));
      EvictDistinct(SwapRemove(t, Oldest(t.entries)), max);
    }
  }

  ghost predicate Targets(room: Uuid, p: Part, e: Assembly) {
    e.room == room && e.id == p.assemblyId
  }

  /** What a push finds before it asks the budget. */
  lemma FrontFacts(max: nat, ttl: nat, es: seq<Assembly>, room: Uuid, p: Part, now: int)
    requires max > 0 && Inv(max, es)
    ensures var f := PushFront(max, ttl, es, room, p, now);
            && Distinct(f.table.entries)
            && |f.table.entries| <= max
            && (forall e :: e in f.table.entries ==> e in es && Age(e, now) < ttl)
            && (!f.Refused? ==>
                  && ValidateHeader(p).Ok? && Base64.FromBase64(p.data) == Some(f.piece) && 0 < |f.piece| <= MAX_PART_BYTES)
            && (f.Known? ==> Targets(room, p, f.table.entries[f.pos]))
            && (f.Fresh? ==>
                  && p.index == 0 && |f.table.entries| < max
                  && forall e :: e in f.table.entries ==> e.room == room ==> e.id != p.assemblyId && e.kind != p.kind)
            && (f.Refused? && ValidateHeader(p).Ok? ==> forall e :: e in f.table.entries ==> !Targets(room, p, e))
  {
    hide EntryOk, Apart, CeilDiv, Base64.Decode, Base64.Encode, Evict, Find, ValidateHeader, Kept;
    FrontOrigin(max, ttl, es, room, p, now);
    var t := Expire(Table(es, []), ttl, now);
    KeptMembers(es, (e: Assembly) => Age(e, now) < ttl);
    KeptDistinct(es, (e: Assembly) => Age(e, now) < ttl);
    var byKey := (e: Assembly) => !(e.room == room && e.id == p.assemblyId);
    KeptMembers(t.entries, byKey);
    KeptDistinct(t.entries, byKey);
    var byKind := (e: Assembly) => !(e.room == room && e.kind == p.kind);
    KeptMembers(t.entries, byKind);
    KeptDistinct(t.entries, byKind);
    EvictMembers(Retain(t, byKind), max);
    EvictDistinct(Retain(t, byKind), max);
    if Base64.FromBase64(p.data).Some? {
      Base64.Bijection(Base64.FromBase64(p.data).value, p.data);
    }
  }

  lemma OldPiece(e: Assembly, piece: Bytes, now: int, j: nat)
    requires j < |e.ends|
    ensures var e' := Extend(e, piece, now);
            |e'.ends| == |e.ends| + 1 && Start(e', j) == Start(e, j) && e'.ends[j] == e.ends[j]
  {}

  lemma NewPiece(e: Assembly, piece: Bytes, now: int)
    requires Partitioned(e)
    ensures var e' := Extend(e, piece, now);
            && |e'.ends| == |e.ends| + 1 && |e'.buf| == |e.buf| + |piece|
            && Start(e', |e.ends|) == |e.buf| && e'.ends[|e.ends|] == |e'.buf|
  {}

  lemma ExtendPartition(e: Assembly, piece: Bytes, now: int)
    requires Partitioned(e) && 0 < |piece| <= MAX_PART_BYTES
    ensures Partitioned(Extend(e, piece, now))
  {
    hide Extend, Start;
    var e', n := Extend(e, piece, now), |e.ends|;
    NewPiece(e, piece, now);
    forall j | 0 <= j < n
      ensures Start(e', j) == Start(e, j) && e'.ends[j] == e.ends[j]
    {
      OldPiece(e, piece, now, j);
    }
  }

  lemma ExtendPieces(e: Assembly, piece: Bytes, now: int)
    requires Partitioned(e) && 0 < |piece| <= MAX_PART_BYTES
    ensures var e' := Extend(e, piece, now);
            && Partitioned(e')
            && PieceOf(e', |e.ends|) == piece
            && forall j :: 0 <= j < |e.ends| ==> PieceOf(e', j) == PieceOf(e, j)
  {
    var e' := Extend(e, piece, now);
    assert e'.buf == e.buf + piece;
    hide Extend, Start;
    ExtendPartition(e, piece, now);
    NewPiece(e, piece, now);
    assert e'.buf[|e.buf|..|e'.buf|] == piece;
    forall j | 0 <= j < |e.ends|
      ensures PieceOf(e', j) == PieceOf(e, j)
    {
      OldPiece(e, piece, now, j);
      assert e'.buf[..|e.buf|] == e.buf;
      assert e'.buf[Start(e, j)..e.ends[j]] == e.buf[Start(e, j)..e.ends[j]];
    }
  }

  lemma TakenEntry<M>(codec: Codec<M>, e: Assembly, p: Part, piece: Bytes, now: int)
    requires ValidateHeader(p).Ok? && 0 < |piece| <= MAX_PART_BYTES
    requires EntryOk(e) || (exists room :: e == NewAssembly(room, p, now))
    ensures Partitioned(e)
    ensures var (e', r) := TakePiece(codec, e, p, piece, now);
            && e'.room == e.room && e'.id == e.id && e'.kind == e.kind
            && (r == Ok(None) ==> EntryOk(e'))
  {
    assert Partitioned(e);
    hide ValidateHeader, Finish, PieceOf, EndsOk, Start;
    if TakePiece(codec, e, p, piece, now).1 == Ok(None) && p.index >= |e.ends| {
      ExtendPartition(e, piece, now);
    }
  }

  lemma ReplacedDistinct(es: seq<Assembly>, pos: nat, e: Assembly)
    requires pos < |es| && Distinct(es)
    requires e.room == es[pos].room && e.id == es[pos].id && e.kind == es[pos].kind
    ensures Distinct(es[pos := e])
    ensures forall x :: x in es && x != es[pos] ==> x in es[pos := e]
  {
    forall x | x in es && x != es[pos]
      ensures x in es[pos := e]
    {
      var i :| 0 <= i < |es| && es[i] == x;
      assert es[pos := e][i] == x;
    }
  }

  /** One table step of an accepted or refused piece keeps the invariant. */
  lemma TakeKeepsInv<M>(codec: Codec<M>, max: nat, t: Table, pos: nat, p: Part, piece: Bytes, now: int)
    requires pos < |t.entries| && |t.entries| <= max && Distinct(t.entries)
    requires forall i :: 0 <= i < |t.entries| && i != pos ==> EntryOk(t.entries[i])
    requires ValidateHeader(p).Ok? && 0 < |piece| <= MAX_PART_BYTES
    requires EntryOk(t.entries[pos]) || (exists room :: t.entries[pos] == NewAssembly(room, p, now))
    ensures Partitioned(t.entries[pos]) && Inv(max, Take(codec, t, pos, p, piece, now).0.entries)
  {
    hide TakePiece, EntryOk;
    var e0 := t.entries[pos];
    TakenEntry(codec, e0, p, piece, now);
    var (e, r) := TakePiece(codec, e0, p, piece, now);
    var es := t.entries[pos := e];
    ReplacedDistinct(t.entries, pos, e);
    SwapRemovedDistinct(es, pos);
    SwapRemovedMembers(es, pos);
    forall x | x in SwapRemoved(es, pos)
      ensures EntryOk(x)
    {
      assert Apart(x, e);
      var i :| 0 <= i < |es| && es[i] == x;
    }
  }

  /** Every push keeps the invariant, whatever the piece says. */
  lemma PushKeepsInv<M>(cfg: Config<M>, es: seq<Assembly>, room: Uuid, p: Part, now: int, granted: bool)
    requires cfg.maxConcurrent > 0 && Inv(cfg.maxConcurrent, es)
    ensures Inv(cfg.maxConcurrent, Push(cfg, es, room, p, now, granted).0.entries)
  {
    FrontFacts(cfg.maxConcurrent, cfg.ttl, es, room, p, now);
    match PushFront(cfg.maxConcurrent, cfg.ttl, es, room, p, now)
    case Refused(t, e) =>
    case Known(t, pos, piece) => TakeKeepsInv(cfg.codec, cfg.maxConcurrent, t, pos, p, piece, now);
    case Fresh(t, piece) =>
      if granted {
        var begun := NewAssembly(room, p, now);
        var t' := t.(entries := t.entries + [begun]);
        assert t'.entries[|t.entries|] == begun;
        TakeKeepsInv(cfg.codec, cfg.maxConcurrent, t', |t.entries|, p, piece, now);
      }
  }

  // ----- where the entries of the next table come from -----

  /** `p` is, verbatim, piece `j` of the assembly. */
  ghost predicate IsPiece(p: Part, e: Assembly, j: nat) {
    && SameHeader(e, p) && p.index == j < |e.ends| && EndsOk(e)
    && Base64.FromBase64(p.data) == Some(PieceOf(e, j))
  }

  /** How an entry of the table after a push relates to the table before it. */
  datatype Origin = Untouched | Grown(from: Assembly) | Begun

  ghost predicate HasOrigin(ttl: nat, es: seq<Assembly>, room: Uuid, p: Part, now: int, e: Assembly, how: Origin) {
    match how
    case Untouched =>
      && e in es && Age(e, now) < ttl
      && (Targets(room, p, e) && ValidateHeader(p).Ok? ==> exists j :: IsPiece(p, e, j))
    case Grown(e0) =>
      && e0 in es && Age(e0, now) < ttl && Targets(room, p, e0)
      && Base64.FromBase64(p.data).Some? && e == Extend(e0, Base64.FromBase64(p.data).value, now)
      && IsPiece(p, e, |e0.ends|)
    case Begun =>
      && Targets(room, p, e) && |e.ends| == 1 && e.lastActivity == now && IsPiece(p, e, 0)
  }

  lemma TakeOrigin<M>(codec: Codec<M>, t: Table, pos: nat, room: Uuid, p: Part, piece: Bytes, now: int, e: Assembly)
      returns (from: Assembly)
    requires pos < |t.entries| && Distinct(t.entries) && Targets(room, p, t.entries[pos])
    requires Partitioned(t.entries[pos]) && 0 < |piece| <= MAX_PART_BYTES
    requires Base64.FromBase64(p.data) == Some(piece)
    requires e in Take(codec, t, pos, p, piece, now).0.entries
    ensures from in t.entries
    ensures e == from ==> (Targets(room, p, e) ==> exists j :: IsPiece(p, e, j))
    ensures e != from ==> from == t.entries[pos] && e == Extend(from, piece, now) && IsPiece(p, e, |from.ends|)
  {
    var e0 := t.entries[pos];
    assert EndsOk(e0);
    hide Partitioned;
    var (e1, r) := TakePiece(codec, e0, p, piece, now);
    var es := t.entries[pos := e1];
    ReplacedDistinct(t.entries, pos, e1);
    if r == Ok(None) {
      var i :| 0 <= i < |es| && es[i] == e;
      from := t.entries[i];
      if i == pos {
        if p.index < |e0.ends| {
          assert IsPiece(p, e, p.index);
        } else {
          ExtendPieces(e0, piece, now);
        }
      } else {
        assert Apart(e, e0) || Apart(e0, e);
      }
    } else {
      SwapRemovedDistinct(es, pos);
      SwapRemovedMembers(es, pos);
      assert Apart(e, e1);
      var i :| 0 <= i < |es| && es[i] == e;
      from := t.entries[i];
    }
  }

  lemma PushOrigin<M>(cfg: Config<M>, es: seq<Assembly>, room: Uuid, p: Part, now: int, granted: bool, e: Assembly)
      returns (how: Origin)
    requires cfg.maxConcurrent > 0 && Inv(cfg.maxConcurrent, es)
    requires e in Push(cfg, es, room, p, now, granted).0.entries
    ensures HasOrigin(cfg.ttl, es, room, p, now, e, how)
  {
    hide TakePiece, PieceOf, Evict;
    FrontFacts(cfg.maxConcurrent, cfg.ttl, es, room, p, now);
    match PushFront(cfg.maxConcurrent, cfg.ttl, es, room, p, now)
    case Refused(t, err) =>
      how := Untouched;
    case Known(t, pos, piece) =>
      assert EntryOk(t.entries[pos]);
      var from := TakeOrigin(cfg.codec, t, pos, room, p, piece, now, e);
      how := if e == from then Untouched else Grown(from);
    case Fresh(t, piece) =>
      how := Untouched;
      if granted {
        var begun := NewAssembly(room, p, now);
        var t' := t.(entries := t.entries + [begun]);
        assert t'.entries[|t.entries|] == begun;
        assert Partitioned(begun);
        TakeKeepsInv(cfg.codec, cfg.maxConcurrent, t', |t.entries|, p, piece, now);
        var from := TakeOrigin(cfg.codec, t', |t.entries|, room, p, piece, now, e);
        assert EntryOk(e);
        if from == begun {
          how := Begun;
        }
      }
  }
}
