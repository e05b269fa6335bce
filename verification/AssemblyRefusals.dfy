/** What a refused push costs (shared/protocol/src/manifest_parts.rs:325-422): `begin`
    replaces and evicts before it reserves, and `validate_header` returns before
    anything is dropped. */
module AssemblyRefusals {
  import opened Wrappers
  import opened Words
  import opened ManifestParts
  import opened AssemblyTable
  import opened AssemblyRuns
  import opened AssemblySafety
  import opened AssemblyDelivery
  import Base64

  /** The live assemblies that a new one of this room and kind does not replace. */
  function Rivals(es: seq<Assembly>, ttl: nat, room: Uuid, kind: Kind, now: int): seq<Assembly> {
    Kept(Kept(es, (e: Assembly) => Age(e, now) < ttl), (e: Assembly) => !(e.room == room && e.kind == kind))
  }

  lemma {:induction false} KeptSame(es: seq<Assembly>, f: Assembly -> bool, g: Assembly -> bool)
    requires forall e :: f(e) == g(e)
    ensures Kept(es, f) == Kept(es, g)
  {
    if es != [] {
      KeptSame(es[..|es| - 1], f, g);
    }
  }

  lemma RivalsAre(t: Table, es: seq<Assembly>, ttl: nat, room: Uuid, kind: Kind, now: int)
    requires t == Expire(Table(es, []), ttl, now)
    ensures Retain(t, (e: Assembly) => !(e.room == room && e.kind == kind)).entries == Rivals(es, ttl, room, kind, now)
    ensures forall e :: e in Rivals(es, ttl, room, kind, now)
              <==> e in es && Age(e, now) < ttl && !(e.room == room && e.kind == kind)
    ensures |Rivals(es, ttl, room, kind, now)| <= |es|
  {
    var live := (e: Assembly) => Age(e, now) < ttl;
    var other := (e: Assembly) => !(e.room == room && e.kind == kind);
    KeptMembers(es, live);
    KeptMembers(Kept(es, live), other);
    KeptSame(es, (e: Assembly) => Age(e, now) < ttl, live);
    KeptSame(Kept(es, live), (e: Assembly) => !(e.room == room && e.kind == kind), other);
  }

  lemma OneEvicted(t: Table, max: nat)
    requires 0 < max && |t.entries| <= max && Distinct(t.entries)
    ensures |t.entries| < max ==> Evict(t, max) == t
    ensures |t.entries| == max ==>
              forall e :: e in Evict(t, max).entries <==> e in t.entries && e != t.entries[Oldest(t.entries)]
  {
    hide Apart;
    if |t.entries| == max {
      var i := Oldest(t.entries);
      SwapRemovedDistinct(t.entries, i);
      SwapRemovedMembers(t.entries, i);
      ApartFromItself(t.entries[i]);
      assert Evict(t, max) == SwapRemove(t, i);
    }
  }

  lemma ApartFromItself(e: Assembly)
    ensures !Apart(e, e)
  {}

  lemma OnlyFreshAsksBudget<M>(cfg: Config<M>, es: seq<Assembly>, room: Uuid, p: Part, now: int, granted: bool)
    requires cfg.maxConcurrent > 0 && Inv(cfg.maxConcurrent, es)
    requires Push(cfg, es, room, p, now, granted).1 == Err(BudgetExhausted)
    ensures Push(cfg, es, room, p, now, granted).0.entries
            == MakeRoom(Expire(Table(es, []), cfg.ttl, now), room, p.kind, cfg.maxConcurrent).entries
  {
    hide Expire, MakeRoom, DropAssembly, Inv, EndsOk, PieceOf, Find;
  }

  /** Exactly which live assemblies a push costs that the budget then refuses: the one
      of the same room and kind, and, if the table is still full without it and the
      expired ones, the stalest of the others. */
  lemma BudgetRefusalCosts<M>(cfg: Config<M>, es: seq<Assembly>, room: Uuid, p: Part, now: int, granted: bool, e: Assembly)
    requires cfg.maxConcurrent > 0 && Inv(cfg.maxConcurrent, es)
    requires Push(cfg, es, room, p, now, granted).1 == Err(BudgetExhausted)
    requires e in es && Age(e, now) < cfg.ttl
    ensures var rest := Rivals(es, cfg.ttl, room, p.kind, now);
            e !in Push(cfg, es, room, p, now, granted).0.entries
            <==> (e.room == room && e.kind == p.kind) || (|rest| == cfg.maxConcurrent && e == rest[Oldest(rest)])
  {
    hide Push, Expire, EntryOk;
    var t := Expire(Table(es, []), cfg.ttl, now);
    OnlyFreshAsksBudget(cfg, es, room, p, now, granted);
    RivalsAre(t, es, cfg.ttl, room, p.kind, now);
    var rest := Retain(t, (e: Assembly) => !(e.room == room && e.kind == p.kind));
    RivalsDistinct(es, cfg.ttl, room, p.kind, now);
    OneEvicted(rest, cfg.maxConcurrent);
  }

  lemma RivalsDistinct(es: seq<Assembly>, ttl: nat, room: Uuid, kind: Kind, now: int)
    requires Distinct(es)
    ensures Distinct(Rivals(es, ttl, room, kind, now))
  {
    var live := (e: Assembly) => Age(e, now) < ttl;
    KeptDistinct(es, live);
    KeptDistinct(Kept(es, live), (e: Assembly) => !(e.room == room && e.kind == kind));
  }

  // ----- both refusals do occur -----

  /** The first of two pieces of a manifest of `bytes` bytes. */
  function FirstOfTwo(id: Uuid, bytes: u32, piece: Bytes): Part {
    Part(id, Published, 0, 2, bytes, seq(64, _ => '0'), 0, 0, Base64.Encode(piece))
  }

  function Begun(room: Uuid, id: Uuid, bytes: u32, piece: Bytes, now: int): Assembly {
    Extend(NewAssembly(room, FirstOfTwo(id, bytes, piece), now), piece, now)
  }

  lemma FirstIsValid(id: Uuid, bytes: u32, piece: Bytes)
    requires 2 <= bytes <= 1024 && |piece| == 1
    ensures ValidateHeader(FirstOfTwo(id, bytes, piece)).Ok?
    ensures Base64.FromBase64(FirstOfTwo(id, bytes, piece).data) == Some(piece)
  {
    hide Base64.FromBase64, Base64.Encode;
    Base64.Bijection(piece, Base64.Encode(piece));
  }

  lemma FirstFound(max: nat, ttl: nat, es: seq<Assembly>, room: Uuid, id: Uuid, bytes: u32, piece: Bytes, now: int)
    requires max > 0 && 2 <= bytes <= 1024 && |piece| == 1 && forall e :: e in es ==> !(e.room == room && e.id == id)
    ensures PushFront(max, ttl, es, room, FirstOfTwo(id, bytes, piece), now)
            == Fresh(MakeRoom(Expire(Table(es, []), ttl, now), room, Published, max), piece)
  {
    hide Expire, MakeRoom, PushFront, ValidateHeader, Base64.FromBase64, Base64.Encode;
    FirstIsValid(id, bytes, piece);
    FirstFront(max, ttl, es, room, FirstOfTwo(id, bytes, piece), piece, now);
  }

  /** A first piece of several is taken as it starts its assembly. */
  lemma BeginTaken<M>(codec: Codec<M>, t: Table, room: Uuid, p: Part, piece: Bytes, now: int)
    requires p.index == 0 && 1 < p.total && |piece| <= p.totalBytes
    ensures Begin(codec, t, room, p, piece, now)
            == (t.(entries := t.entries + [Extend(NewAssembly(room, p, now), piece, now)]), Ok(None))
  {
    var e := NewAssembly(room, p, now);
    var es := t.entries + [e];
    assert es[|t.entries|] == e;
    assert es[|t.entries| := Extend(e, piece, now)] == t.entries + [Extend(e, piece, now)];
  }

  lemma RunFirst<M>(cfg: Config<M>, room: Uuid, id: Uuid, bytes: u32, piece: Bytes, now: int)
    requires cfg.maxConcurrent > 0 && 2 <= bytes <= 1024 && |piece| == 1
    ensures Run(cfg, [PushOp(room, FirstOfTwo(id, bytes, piece), now, true)]) == [Begun(room, id, bytes, piece, now)]
  {
    var p := FirstOfTwo(id, bytes, piece);
    var ops := [PushOp(room, p, now, true)];
    var t := MakeRoom(Expire(Table([], []), cfg.ttl, now), room, Published, cfg.maxConcurrent);
    assert t == Table([], []);
    hide Push, Begin, MakeRoom, Expire, Base64.Encode;
    FirstFound(cfg.maxConcurrent, cfg.ttl, [], room, id, bytes, piece, now);
    PushFresh(cfg, [], room, p, now, t, piece);
    BeginTaken(cfg.codec, t, room, p, piece, now);
    assert [] + [Begun(room, id, bytes, piece, now)] == [Begun(room, id, bytes, piece, now)];
    assert ops[..0] == [] && Run(cfg, []) == [];
  }

  /** The doc comment fails: after the first of two pieces, a part of the same
      assembly with a count of 0 is refused and the assembly is still there. */
  lemma HeaderErrorKeepsAssembly<M>(cfg: Config<M>, piece: Bytes)
    requires cfg.maxConcurrent > 0 && cfg.ttl > 0 && |piece| == 1
    ensures var p := FirstOfTwo(7, 2, piece);
            var (t, r) := Push(cfg, Run(cfg, [PushOp(1, p, 0, true)]), 1, p.(total := 0), 0, true);
            r == Err(BadHeader(CountOutOfRange)) && InTable(t.entries, 1, 7)
  {
    RunFirst(cfg, 1, 7, 2, piece, 0);
    hide Run, Take, Begin, MakeRoom, Base64.Encode;
    var e := Begun(1, 7, 2, piece, 0);
    ExpireMembers([e], cfg.ttl, 0);
    assert e in [e] && Age(e, 0) == 0;
  }

  /** A refused reservation costs a live foreign assembly: with one slot and a budget
      of 2 bytes, all held by an assembly of room 1, a 3-byte manifest for room 2 is
      refused and the assembly of room 1 is gone. */
  lemma RefusedReservationEvicts<M>(cfg: Config<M>, piece: Bytes)
    requires cfg.maxConcurrent == 1 && cfg.ttl > 0 && |piece| == 1
    ensures var es := Run(cfg, [PushOp(1, FirstOfTwo(7, 2, piece), 0, true)]);
            var p := FirstOfTwo(8, 3, piece);
            var granted := Held(es) - Sum(PushFront(1, cfg.ttl, es, 2, p, 0).table.freed) + p.totalBytes <= 2;
            && es == [Begun(1, 7, 2, piece, 0)] && Held(es) == 2 && !granted
            && Push(cfg, es, 2, p, 0, granted) == (Table([], [2]), Err(BudgetExhausted))
  {
    RunFirst(cfg, 1, 7, 2, piece, 0);
    hide Run, Take, Begin, ValidateHeader, Base64.FromBase64, PushFront, Base64.Encode;
    var e := Begun(1, 7, 2, piece, 0);
    OneHeld(e);
    LiveStays(e, cfg.ttl, 0);
    FirstFound(1, cfg.ttl, [e], 2, 8, 3, piece, 0);
    EvictedForOther(e, 2);
  }

  lemma OneHeld(e: Assembly)
    ensures Held([e]) == e.totalBytes && Sum([e.totalBytes]) == e.totalBytes
  {
    assert [e][..0] == [] && [e.totalBytes][..0] == [];
  }

  lemma KeepOne(e: Assembly, keep: Assembly -> bool)
    requires keep(e)
    ensures Retain(Table([e], []), keep) == Table([e], [])
  {
    assert [e][..0] == [] && [] + [e] == [e];
    assert Kept([], keep) == [] && Dropped([], keep) == [];
    assert Kept([e], keep) == [e];
    assert Dropped([e], keep) == [];
  }

  lemma LiveStays(e: Assembly, ttl: nat, now: int)
    requires Age(e, now) < ttl
    ensures Expire(Table([e], []), ttl, now) == Table([e], [])
  {
    KeepOne(e, (x: Assembly) => Age(x, now) < ttl);
  }

  lemma EvictedForOther(e: Assembly, room: Uuid)
    requires e.room != room
    ensures MakeRoom(Table([e], []), room, Published, 1) == Table([], [e.totalBytes])
  {
    KeepOne(e, (x: Assembly) => !(x.room == room && x.kind == Published));
    assert SwapRemoved([e], 0) == [] && [] + [e.totalBytes] == [e.totalBytes];
    assert Evict(Table([e], []), 1) == Table([], [e.totalBytes]);
  }
}
