/** The assembler and its budget as the objects the program runs
    (shared/protocol/src/manifest_parts.rs:131-488), every method proved to be
    the corresponding transition of `AssemblyTable`. Foreign threads that share
    the budget are the subject of `SharedBudget`. */
module PartAssembler {
  import opened Wrappers
  import opened Words
  import opened ManifestParts
  import Table = AssemblyTable
  import opened AssemblyRuns
  import opened SharedBudget
  import Base64

  type Assembly = Table.Assembly

  class ByteBudget {
    var used: int
    const cap: nat

    constructor (cap: nat)
      ensures used == 0 && this.cap == cap
    {
      this.cap := cap;
      used := 0;
    }

    method CompareExchange(cur: int, next: int) returns (ok: bool, seen: int)
      modifies this
      ensures seen == old(used) && ok == (seen == cur)
      ensures used == if ok then next else old(used)
    {
      seen := used;
      ok := seen == cur;
      if ok {
        used := next;
      }
    }

    /** Without interference the loop ends at the first exchange. */
    method Reserve(bytes: nat) returns (ok: bool)
      modifies this
      ensures ok == (old(used) + bytes <= cap)
      ensures used == if ok then old(used) + bytes else old(used)
    {
      var cur := used;
      ok := false;
      while !ok
        invariant ok ==> old(used) + bytes <= cap && used == old(used) + bytes
        invariant !ok ==> used == old(used) == cur
        decreases !ok
      {
        var next := cur + bytes;
        if next > cap {
          return false;
        }
        var seen;
        ok, seen := CompareExchange(cur, next);
        if !ok {
          cur := seen;
        }
      }
    }

    method Release(bytes: nat)
      modifies this
      ensures used == old(used) - bytes
    {
      used := used - bytes;
    }
  }

  class PartAssembler<!M> {
    const maxConcurrent: nat
    const ttl: nat
    const codec: Codec<M>
    const budget: ByteBudget
    var entries: seq<Assembly>

    ghost function Cfg(): Table.Config<M> { Table.Config(maxConcurrent, ttl, codec) }

    ghost predicate Valid()
      reads this, budget
    {
      maxConcurrent > 0 && Inv(maxConcurrent, entries) && Table.Held(entries) <= budget.used <= budget.cap
    }

    constructor (maxConcurrent: nat, ttl: nat, codec: Codec<M>, budget: ByteBudget)
      requires 0 <= budget.used <= budget.cap
      ensures Valid() && entries == [] && this.budget == budget
      ensures Cfg() == Table.Config(if maxConcurrent == 0 then 1 else maxConcurrent, ttl, codec)
    {
      this.maxConcurrent := if maxConcurrent == 0 then 1 else maxConcurrent;
      this.ttl := ttl;
      this.codec := codec;
      this.budget := budget;
      entries := [];
    }

    /** `Vec::retain`; each dropped entry gives its reservation back. */
    method Retain(keep: Assembly -> bool)
      modifies this, budget
      ensures entries == Table.Kept(old(entries), keep)
      ensures budget.used == old(budget.used) - Table.Sum(Table.Dropped(old(entries), keep))
    {
      var kept := [];
      var i := 0;
      while i < |entries|
        invariant i <= |entries| && entries == old(entries)
        invariant kept == Table.Kept(entries[..i], keep)
        invariant budget.used == old(budget.used) - Table.Sum(Table.Dropped(entries[..i], keep))
      {
        assert entries[..i + 1][..i] == entries[..i];
        ghost var gone := Table.Dropped(entries[..i], keep);
        assert Table.Dropped(entries[..i + 1], keep) == gone + if keep(entries[i]) then [] else [entries[i].totalBytes];
        assert gone + [] == gone;
        if keep(entries[i]) {
          kept := kept + [entries[i]];
        } else {
          SumAppend(gone, [entries[i].totalBytes]);
          SumOne(entries[i].totalBytes);
          budget.Release(entries[i].totalBytes);
        }
        i := i + 1;
      }
      assert entries[..i] == entries;
      entries := kept;
    }

    method SwapRemove(i: nat)
      requires i < |entries|
      modifies this, budget
      ensures entries == Table.SwapRemoved(old(entries), i)
      ensures budget.used == old(budget.used) - old(entries[i].totalBytes)
    {
      var gone := entries[i];
      entries := entries[i := entries[|entries| - 1]][..|entries| - 1];
      budget.Release(gone.totalBytes);
    }

    method Clear()
      requires Valid()
      modifies this, budget
      ensures Valid() && entries == []
      ensures budget.used == old(budget.used) - Table.Held(old(entries))
    {
      RetainConserves(entries, (e: Assembly) => false);
      KeptNone(entries);
      Retain((e: Assembly) => false);
    }

    method Expire(now: int) returns (dropped: nat)
      requires Valid()
      modifies this, budget
      ensures Valid()
      ensures var t := Table.Expire(Table.Table(old(entries), []), ttl, now);
              && entries == t.entries && dropped == |old(entries)| - |entries|
              && budget.used == old(budget.used) - Table.Sum(t.freed)
    {
      var before := |entries|;
      var ttl := this.ttl;
      var alive := (e: Assembly) => Table.Age(e, now) < ttl;
      RetainConserves(entries, alive);
      Table.KeptMembers(entries, alive);
      KeptDistinct(entries, alive);
      assert [] + Table.Dropped(entries, alive) == Table.Dropped(entries, alive);
      Retain(alive);
      dropped := before - |entries|;
    }

    /** `freed` is what this call has given back already. */
    method DropAssembly(room: Uuid, id: Uuid, ghost freed: seq<nat>)
      modifies this, budget
      ensures var t := Table.DropAssembly(Table.Table(old(entries), freed), room, id);
              entries == t.entries && budget.used == old(budget.used) + Table.Sum(freed) - Table.Sum(t.freed)
    {
      var other := (e: Assembly) => !(e.room == room && e.id == id);
      SumAppend(freed, Table.Dropped(entries, other));
      Retain(other);
    }

    method Position(room: Uuid, id: Uuid) returns (pos: Option<nat>)
      ensures pos == Table.Find(entries, room, id)
    {
      var i := 0;
      while i < |entries|
        invariant i <= |entries|
        invariant Table.Find(entries[..i], room, id) == None
      {
        assert entries[..i + 1][..i] == entries[..i];
        if entries[i].room == room && entries[i].id == id {
          FindStable(entries, i + 1, room, id);
          return Some(i);
        }
        i := i + 1;
      }
      assert entries[..i] == entries;
      return None;
    }

    method IndexOfOldest() returns (oldest: nat)
      requires entries != []
      ensures oldest == Table.Oldest(entries)
    {
      oldest := 0;
      var i := 1;
      assert entries[..1] == [entries[0]];
      while i < |entries|
        invariant 1 <= i <= |entries| && oldest < i
        invariant oldest == Table.Oldest(entries[..i])
      {
        assert entries[..i + 1][..i] == entries[..i];
        if entries[i].lastActivity < entries[oldest].lastActivity {
          oldest := i;
        }
        i := i + 1;
      }
      assert entries[..i] == entries;
    }

    /** Replace the same kind, evict the stalest, reserve, and open an entry. */
    method Begin(room: Uuid, p: Part, now: int, ghost freed0: seq<nat>) returns (pos: Option<nat>)
      requires maxConcurrent > 0
      modifies this, budget
      ensures var t := Table.MakeRoom(Table.Table(old(entries), freed0), room, p.kind, maxConcurrent);
              var free := old(budget.used) + Table.Sum(freed0) - Table.Sum(t.freed);
              if free + p.totalBytes <= budget.cap then
                && pos == Some(|t.entries|) && entries == t.entries + [Table.NewAssembly(room, p, now)]
                && budget.used == free + p.totalBytes
              else pos == None && entries == t.entries && budget.used == free
    {
      var other := (e: Assembly) => !(e.room == room && e.kind == p.kind);
      ghost var start := Table.Retain(Table.Table(entries, freed0), other);
      ghost var freed: seq<nat> := start.freed;
      SumAppend(freed0, Table.Dropped(entries, other));
      Retain(other);
      while |entries| >= maxConcurrent
        invariant Table.Evict(Table.Table(entries, freed), maxConcurrent) == Table.Evict(start, maxConcurrent)
        invariant budget.used == old(budget.used) + Table.Sum(freed0) - Table.Sum(freed)
        decreases |entries|
      {
        var oldest := IndexOfOldest();
        SumAppend(freed, [entries[oldest].totalBytes]);
        SumOne(entries[oldest].totalBytes);
        freed := freed + [entries[oldest].totalBytes];
        SwapRemove(oldest);
      }
      var granted := budget.Reserve(p.totalBytes);
      if !granted {
        return None;
      }
      entries := entries + [Table.NewAssembly(room, p, now)];
      return Some(|entries| - 1);
    }

    method Take(pos: nat, p: Part, piece: Bytes, now: int) returns (r: Table.PushResult<M>)
      requires pos < |entries| && Table.EndsOk(entries[pos])
      modifies this
      ensures var (e, r') := Table.TakePiece(codec, old(entries[pos]), p, piece, now);
              entries == old(entries)[pos := e] && r == r'
    {
      var e := entries[pos];
      if !Table.SameHeader(e, p) {
        return Err(BadHeader(HeaderChanged));
      }
      var next := |e.ends|;
      if p.index < next {
        var start := if p.index == 0 then 0 else e.ends[p.index - 1];
        assert Table.Start(e, p.index) <= e.ends[p.index];
        if e.buf[start..e.ends[p.index]] == piece {
          return Ok(None);
        }
        return Err(Conflict(p.index));
      }
      if p.index != next {
        return Err(OutOfOrder(next, p.index));
      }
      if |e.buf| + |piece| > e.totalBytes {
        return Err(LengthMismatch);
      }
      e := e.(buf := e.buf + piece);
      e := e.(ends := e.ends + [|e.buf|]);
      e := e.(lastActivity := now);
      entries := entries[pos := e];
      if p.index + 1 < e.total {
        return Ok(None);
      }
      if |e.buf| != e.totalBytes {
        return Err(LengthMismatch);
      }
      if codec.sha256Hex(e.buf) != e.digest {
        return Err(DigestMismatch);
      }
      match codec.parse(e.buf) {
        case Err(message) => return Err(BadManifest(message));
        case Ok(m) => return Ok(Some(Table.Assembled(e.room, e.kind, e.version, e.publishedAtMs, m)));
      }
    }

    /** Take the piece and remove the entry unless more pieces are expected. */
    method TakeOrRemove(pos: nat, p: Part, piece: Bytes, now: int, ghost freed: seq<nat>) returns (r: Table.PushResult<M>)
      requires pos < |entries| && Table.EndsOk(entries[pos])
      modifies this, budget
      ensures var (t, r') := Table.Take(codec, Table.Table(old(entries), freed), pos, p, piece, now);
              && entries == t.entries && r == r'
              && budget.used == old(budget.used) + Table.Sum(freed) - Table.Sum(t.freed)
    {
      r := Take(pos, p, piece, now);
      if r != Ok(None) {
        SumAppend(freed, [entries[pos].totalBytes]);
        SumOne(entries[pos].totalBytes);
        SwapRemove(pos);
      }
    }

    /** One piece. The budget is asked with what this call gave back before. */
    method Push(room: Uuid, p: Part, now: int) returns (r: Table.PushResult<M>)
      requires Valid()
      modifies this, budget
      ensures Valid()
      ensures var f := Table.PushFront(maxConcurrent, ttl, old(entries), room, p, now);
              var granted := old(budget.used) - Table.Sum(f.table.freed) + p.totalBytes <= budget.cap;
              var (t, r') := Table.Push(Cfg(), old(entries), room, p, now, granted);
              && entries == t.entries && r == r'
              && budget.used == old(budget.used) - Table.Sum(t.freed) + if f.Fresh? && granted then p.totalBytes else 0
    {
      hide Table.Take, Inv, Table.Held, Table.Sum, Table.MakeRoom, Base64.Decode, CeilDiv, Table.DropAssembly, Table.Find;
      ghost var es := entries;
      ghost var f := Table.PushFront(maxConcurrent, ttl, es, room, p, now);
      ghost var granted := budget.used - Table.Sum(f.table.freed) + p.totalBytes <= budget.cap;
      PushBalance(Cfg(), es, room, p, now, granted);
      ghost var t0 := Table.Expire(Table.Table(entries, []), ttl, now);
      var _ := Expire(now);
      var valid := ValidateHeader(p);
      if valid.Err? {
        return Err(valid.error);
      }
      if |p.data| > CeilDiv(MAX_PART_BYTES, 3) * 4 {
        DropAssembly(room, p.assemblyId, t0.freed);
        assert f == Table.Refused(Table.DropAssembly(t0, room, p.assemblyId), BadPiece(p.index));
        return Err(BadPiece(p.index));
      }
      var decoded := Base64.FromBase64(p.data);
      if decoded.None? {
        DropAssembly(room, p.assemblyId, t0.freed);
        assert f == Table.Refused(Table.DropAssembly(t0, room, p.assemblyId), BadPiece(p.index));
        return Err(BadPiece(p.index));
      }
      if |decoded.value| > MAX_PART_BYTES {
        DropAssembly(room, p.assemblyId, t0.freed);
        assert f == Table.Refused(Table.DropAssembly(t0, room, p.assemblyId), BadPiece(p.index));
        return Err(BadPiece(p.index));
      }
      var piece := decoded.value;
      var pos := Position(room, p.assemblyId);
      if pos.None? {
        if p.index != 0 {
          return Err(OutOfOrder(0, p.index));
        }
        pos := Begin(room, p, now, t0.freed);
        if pos.None? {
          return Err(BudgetExhausted);
        }
      }
      r := TakeOrRemove(pos.value, p, piece, now, f.table.freed);
    }
  }

  /** What `Push` needs to know about its transition. */
  lemma PushBalance<M>(cfg: Table.Config<M>, es: seq<Assembly>, room: Uuid, p: Part, now: int, granted: bool)
    requires cfg.maxConcurrent > 0 && Inv(cfg.maxConcurrent, es)
    ensures var f := Table.PushFront(cfg.maxConcurrent, cfg.ttl, es, room, p, now);
            var t := Table.Push(cfg, es, room, p, now, granted).0;
            && Balance(f.table) == Table.Held(es)
            && (f.Known? ==> Table.EndsOk(f.table.entries[f.pos]))
            && Inv(cfg.maxConcurrent, t.entries)
            && Balance(t) == Table.Held(es) + (if f.Fresh? && granted then p.totalBytes else 0)
            && Table.Sum(f.table.freed) <= Table.Sum(t.freed)
  {
    hide Table.PushFront, Table.TakePiece, Balance;
    FrontFacts(cfg.maxConcurrent, cfg.ttl, es, room, p, now);
    FrontConserves(cfg.maxConcurrent, cfg.ttl, es, room, p, now);
    var f := Table.PushFront(cfg.maxConcurrent, cfg.ttl, es, room, p, now);
    assert f.Known? ==> f.table.entries[f.pos] in f.table.entries && EntryOk(f.table.entries[f.pos]);
    PushKeepsInv(cfg, es, room, p, now, granted);
    match f
    case Refused(t, e) =>
    case Known(t, pos, piece) =>
      TakeConserves(cfg.codec, t, pos, p, piece, now);
      SumAppend(t.freed, [t.entries[pos].totalBytes]);
    case Fresh(t, piece) =>
      BeginConserves(cfg.codec, t, room, p, piece, now);
      SumAppend(t.freed, [p.totalBytes]);
  }

  lemma {:induction false} FindStable(es: seq<Assembly>, n: nat, room: Uuid, id: Uuid)
    requires n <= |es| && Table.Find(es[..n], room, id).Some?
    ensures Table.Find(es, room, id) == Table.Find(es[..n], room, id)
  {
    if n < |es| {
      assert es[..|es| - 1][..n] == es[..n];
      FindStable(es[..|es| - 1], n, room, id);
    } else {
      assert es[..n] == es;
    }
  }
}
