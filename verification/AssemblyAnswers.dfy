/** What every push answers and what the table then holds, in terms of the entries
    before it (shared/protocol/src/manifest_parts.rs:325-518): each error and each
    `Ok` exactly when. */
module AssemblyAnswers {
  import opened Wrappers
  import opened Words
  import opened ManifestParts
  import opened AssemblyTable
  import opened AssemblyRuns
  import opened AssemblySafety
  import opened AssemblyDelivery
  import opened AssemblyRefusals
  import Base64

  // ----- what a part says -----

  predicate CountsOk(p: Part) {
    1 <= p.total <= 1024 && p.index < p.total
  }

  predicate LengthOk(p: Part) {
    1 <= p.totalBytes <= 32 * 1024 * 1024
  }

  predicate CountFits(p: Part) {
    p.total <= p.totalBytes <= p.total * (512 * 1024)
  }

  predicate LegalHeader(p: Part) {
    && CountsOk(p) && LengthOk(p) && CountFits(p) && IsDigest(p.digest)
    && (p.kind == Publish ==> p.version == 0 && p.publishedAtMs == 0)
  }

  lemma DigestExactly(s: string)
    ensures IsDigest(s) <==> |s| == 64 && forall c :: c in s ==> c in "0123456789abcdef"
  {
    assert forall c: char :: c in "0123456789abcdef" <==> '0' <= c <= '9' || 'a' <= c <= 'f' by {
      HexDigits();
    }
    assert forall i :: 0 <= i < |s| ==> s[i] in s;
  }

  lemma HexDigits()
    ensures forall c: char :: c in "0123456789abcdef" <==> '0' <= c <= '9' || 'a' <= c <= 'f'
  {
    forall c: char
      ensures c in "0123456789abcdef" <==> '0' <= c <= '9' || 'a' <= c <= 'f'
    {
      var digits := "0123456789abcdef";
      if '0' <= c <= '9' {
        assert digits[c as int - '0' as int] == c;
      } else if 'a' <= c <= 'f' {
        assert digits[c as int - 'a' as int + 10] == c;
      }
    }
  }

  /** Exactly which headers are accepted, and what is wrong with each other one. */
  lemma HeaderExactly(p: Part)
    ensures ValidateHeader(p).Ok? <==> LegalHeader(p)
    ensures ValidateHeader(p) == Err(BadHeader(CountOutOfRange)) <==> p.total == 0 || p.total > 1024
    ensures ValidateHeader(p) == Err(BadHeader(IndexOutOfRange)) <==> 1 <= p.total <= 1024 && p.total <= p.index
    ensures ValidateHeader(p) == Err(TooLarge(p.totalBytes, 32 * 1024 * 1024)) <==> CountsOk(p) && !LengthOk(p)
    ensures ValidateHeader(p) == Err(BadHeader(CountDoesNotFit)) <==> CountsOk(p) && LengthOk(p) && !CountFits(p)
    ensures ValidateHeader(p) == Err(BadHeader(BadDigest))
            <==> CountsOk(p) && LengthOk(p) && CountFits(p) && !IsDigest(p.digest)
    ensures ValidateHeader(p) == Err(BadHeader(VersionedPublish))
            <==> CountsOk(p) && LengthOk(p) && CountFits(p) && IsDigest(p.digest) && !LegalHeader(p)
  {
    hide IsDigest;
  }

  /** `piece` is what the part carries. */
  ghost predicate Carried(p: Part, piece: Bytes) {
    0 < |piece| <= 512 * 1024 && p.data == Base64.Encode(piece)
  }

  lemma CarriedDecodes(p: Part, piece: Bytes)
    ensures Carried(p, piece) <==> Base64.FromBase64(p.data) == Some(piece) && |piece| <= MAX_PART_BYTES
  {
    hide Base64.FromBase64, Base64.Encode;
    Base64.Bijection(piece, p.data);
  }

  // ----- what the table has for it -----

  predicate Unexpired(ttl: nat, now: int, e: Assembly) {
    0 < ttl && now - e.lastActivity < ttl
  }

  ghost predicate Has(es: seq<Assembly>, ttl: nat, room: Uuid, p: Part, now: int) {
    exists e :: e in es && Targets(room, p, e) && Unexpired(ttl, now, e)
  }

  /** An assembly under the header of `p` with no piece yet. */
  function Empty(room: Uuid, p: Part, now: int): Assembly {
    Assembly(room, p.assemblyId, p.kind, p.total, p.totalBytes, p.digest, p.version, p.publishedAtMs, [], [], now)
  }

  ghost predicate SameAnnouncement(e: Assembly, p: Part) {
    (e.kind, e.total, e.totalBytes, e.digest, e.version, e.publishedAtMs)
    == (p.kind, p.total, p.totalBytes, p.digest, p.version, p.publishedAtMs)
  }

  /** `p` brings the next piece of `e`. */
  ghost predicate Next(e: Assembly, p: Part) {
    SameAnnouncement(e, p) && p.index == |e.ends|
  }

  /** `p` brings the last piece of `e`, and all pieces together are what was announced. */
  ghost predicate Completes<M>(codec: Codec<M>, e: Assembly, p: Part, piece: Bytes) {
    && Next(e, p) && |e.ends| + 1 == e.total
    && |e.buf| + |piece| == e.totalBytes && codec.sha256Hex(e.buf + piece) == e.digest
  }

  /** The answer to `piece` from an assembly that has the pieces of `e`. */
  ghost predicate Answered<M>(codec: Codec<M>, e: Assembly, p: Part, piece: Bytes, r: PushResult<M>)
    requires EndsOk(e)
  {
    && (r == Err(BadHeader(HeaderChanged)) <==> !SameAnnouncement(e, p))
    && (r == Err(OutOfOrder(|e.ends|, p.index)) <==> SameAnnouncement(e, p) && |e.ends| < p.index)
    && (r == Err(Conflict(p.index)) <==> SameAnnouncement(e, p) && p.index < |e.ends| && PieceOf(e, p.index) != piece)
    && (r == Err(LengthMismatch) <==>
          Next(e, p) && (|e.buf| + |piece| > e.totalBytes || (|e.ends| + 1 == e.total && |e.buf| + |piece| < e.totalBytes)))
    && (r == Err(DigestMismatch) <==>
          && Next(e, p) && |e.ends| + 1 == e.total
          && |e.buf| + |piece| == e.totalBytes && codec.sha256Hex(e.buf + piece) != e.digest)
    && (forall message :: r == Err(BadManifest(message)) <==>
          Completes(codec, e, p, piece) && codec.parse(e.buf + piece) == Err(message))
    && (r.Ok? && r.value.Some? <==> Completes(codec, e, p, piece) && codec.parse(e.buf + piece).Ok?)
    && (r.Ok? && r.value.Some? ==>
          r.value.value == Assembled(e.room, e.kind, e.version, e.publishedAtMs, codec.parse(e.buf + piece).value))
    && (r == Ok(None) <==>
          || (SameAnnouncement(e, p) && p.index < |e.ends| && PieceOf(e, p.index) == piece)
          || (Next(e, p) && |e.ends| + 1 < e.total && |e.buf| + |piece| <= e.totalBytes))
  }

  /** What is in the table for the assembly of `p` after the answer: nothing unless more is
      expected, and then the pieces of `e` with `piece` among them. */
  ghost predicate Left(es: seq<Assembly>, room: Uuid, e: Assembly, p: Part, piece: Bytes, now: int, more: bool) {
    if !more then !InTable(es, room, p.assemblyId)
    else if p.index < |e.ends| then e in es
    else e.(ends := e.ends + [|e.buf| + |piece|], buf := e.buf + piece, lastActivity := now) in es
  }

  lemma TakeAnswers<M>(codec: Codec<M>, e: Assembly, p: Part, piece: Bytes, now: int)
    requires EndsOk(e) && p.index < p.total
    ensures Answered(codec, e, p, piece, TakePiece(codec, e, p, piece, now).1)
  {
    hide PieceOf;
  }

  lemma TakeLeaves<M>(codec: Codec<M>, t: Table, pos: nat, room: Uuid, p: Part, piece: Bytes, now: int)
    requires pos < |t.entries| && Distinct(t.entries) && EndsOk(t.entries[pos]) && Targets(room, p, t.entries[pos])
    ensures var (t', r) := Take(codec, t, pos, p, piece, now);
            && r == TakePiece(codec, t.entries[pos], p, piece, now).1
            && Left(t'.entries, room, t.entries[pos], p, piece, now, r == Ok(None))
            && forall x :: !Targets(room, p, x) ==> (x in t'.entries <==> x in t.entries)
  {
    hide PieceOf, EndsOk, Finish;
    var (e, r) := TakePiece(codec, t.entries[pos], p, piece, now);
    var es := t.entries[pos := e];
    ReplacedDistinct(t.entries, pos, e);
    forall x | !Targets(room, p, x)
      ensures x in es <==> x in t.entries
    {
      if x in es {
        var i :| 0 <= i < |es| && es[i] == x;
        assert t.entries[i] == x;
      }
    }
    if r == Ok(None) {
      assert es[pos] == e;
    } else {
      SwapRemovedMembers(es, pos);
      SwapRemovedDistinct(es, pos);
    }
  }

  // ----- every answer -----

  lemma LiveMembers(es: seq<Assembly>, ttl: nat, now: int)
    requires Distinct(es)
    ensures Distinct(Expire(Table(es, []), ttl, now).entries)
    ensures forall e :: e in Expire(Table(es, []), ttl, now).entries <==> e in es && Unexpired(ttl, now, e)
  {
    ExpireMembers(es, ttl, now);
    KeptDistinct(es, (e: Assembly) => Age(e, now) < ttl);
  }

  lemma KnownFront<M>(cfg: Config<M>, es: seq<Assembly>, room: Uuid, p: Part, now: int, granted: bool)
    requires cfg.maxConcurrent > 0 && Inv(cfg.maxConcurrent, es)
    requires PushFront(cfg.maxConcurrent, cfg.ttl, es, room, p, now).Known?
    ensures var f := PushFront(cfg.maxConcurrent, cfg.ttl, es, room, p, now);
            && f.table == Expire(Table(es, []), cfg.ttl, now)
            && EndsOk(f.table.entries[f.pos])
            && Push(cfg, es, room, p, now, granted) == Take(cfg.codec, f.table, f.pos, p, f.piece, now)
  {
    hide Expire, Take, Find, ValidateHeader, Base64.FromBase64, MakeRoom, DropAssembly, EndsOk;
    FrontFacts(cfg.maxConcurrent, cfg.ttl, es, room, p, now);
    var f := PushFront(cfg.maxConcurrent, cfg.ttl, es, room, p, now);
    assert f.table.entries[f.pos] in es && EntryOk(f.table.entries[f.pos]);
  }

  /** The answer of an assembly that has begun. */
  lemma KnownAnswer<M>(cfg: Config<M>, es: seq<Assembly>, room: Uuid, p: Part, now: int, granted: bool, piece: Bytes, e: Assembly)
    requires cfg.maxConcurrent > 0 && Inv(cfg.maxConcurrent, es)
    requires LegalHeader(p) && Carried(p, piece)
    requires e in es && Targets(room, p, e) && Unexpired(cfg.ttl, now, e)
    ensures EntryOk(e)
    ensures var (t, r) := Push(cfg, es, room, p, now, granted);
            && Answered(cfg.codec, e, p, piece, r) && Left(t.entries, room, e, p, piece, now, r == Ok(None))
            && forall x :: !Targets(room, p, x) ==> (x in t.entries <==> x in es && Unexpired(cfg.ttl, now, x))
  {
    assert p.index < p.total && EndsOk(e);
    hide Push, LegalHeader, Carried, Base64.FromBase64, TakePiece, Left, Answered, PushFront, EntryOk, Expire;
    HeaderExactly(p);
    CarriedDecodes(p, piece);
    FrontFinds(cfg, es, room, p, now, e);
    KnownFront(cfg, es, room, p, now, granted);
    var f := PushFront(cfg.maxConcurrent, cfg.ttl, es, room, p, now);
    LiveMembers(es, cfg.ttl, now);
    TakeAnswers(cfg.codec, e, p, piece, now);
    TakeLeaves(cfg.codec, f.table, f.pos, room, p, piece, now);
  }

  /** A first piece with no assembly to join starts one if the budget grants it. Granted
      or not, it costs the assembly of its room and kind, and the stalest of the others
      if the table is still full without that one and the expired ones. */
  lemma StartAnswer<M>(cfg: Config<M>, es: seq<Assembly>, room: Uuid, p: Part, now: int, granted: bool, piece: Bytes)
    requires cfg.maxConcurrent > 0 && Inv(cfg.maxConcurrent, es)
    requires LegalHeader(p) && Carried(p, piece) && p.index == 0 && !Has(es, cfg.ttl, room, p, now)
    ensures var (t, r) := Push(cfg, es, room, p, now, granted);
            var e, rest := Empty(room, p, now), Rivals(es, cfg.ttl, room, p.kind, now);
            && (if granted then Answered(cfg.codec, e, p, piece, r) else r == Err(BudgetExhausted))
            && Left(t.entries, room, e, p, piece, now, r == Ok(None))
            && forall x :: !Targets(room, p, x) ==>
                 (x in t.entries <==> x in rest && (|rest| == cfg.maxConcurrent ==> x != rest[Oldest(rest)]))
  {
    assert p.index < p.total;
    hide LegalHeader, Carried, Base64.FromBase64, TakePiece, Left, Answered, PushFront, EntryOk, Expire, MakeRoom, Rivals, Take;
    HeaderExactly(p);
    CarriedDecodes(p, piece);
    FirstFront(cfg.maxConcurrent, cfg.ttl, es, room, p, piece, now);
    StartTable(es, cfg.ttl, cfg.maxConcurrent, room, p.kind, now);
    var t := MakeRoom(Expire(Table(es, []), cfg.ttl, now), room, p.kind, cfg.maxConcurrent);
    if granted {
      BeginAnswers(cfg.codec, t, room, p, piece, now);
      PushFresh(cfg, es, room, p, now, t, piece);
    } else {
      RefusedStart(cfg, es, room, p, now, t, piece);
    }
  }

  lemma RefusedStart<M>(cfg: Config<M>, es: seq<Assembly>, room: Uuid, p: Part, now: int, t: Table, piece: Bytes)
    requires cfg.maxConcurrent > 0 && Inv(cfg.maxConcurrent, es)
    requires PushFront(cfg.maxConcurrent, cfg.ttl, es, room, p, now) == Fresh(t, piece)
    ensures Push(cfg, es, room, p, now, false) == (t, Err(BudgetExhausted))
    ensures Left(t.entries, room, Empty(room, p, now), p, piece, now, false)
  {
    FrontFacts(cfg.maxConcurrent, cfg.ttl, es, room, p, now);
    hide PushFront, EntryOk, ValidateHeader, Base64.FromBase64;
  }

  lemma BeginAnswers<M>(codec: Codec<M>, t: Table, room: Uuid, p: Part, piece: Bytes, now: int)
    requires p.index < p.total && Distinct(t.entries)
    requires forall e :: e in t.entries ==> e.room == room ==> e.id != p.assemblyId && e.kind != p.kind
    ensures var (t', r) := Begin(codec, t, room, p, piece, now);
            && Answered(codec, Empty(room, p, now), p, piece, r) && Left(t'.entries, room, Empty(room, p, now), p, piece, now, r == Ok(None))
            && forall x :: !Targets(room, p, x) ==> (x in t'.entries <==> x in t.entries)
  {
    hide TakePiece, Take, Answered, Left;
    var e := Empty(room, p, now);
    var begun := t.(entries := t.entries + [e]);
    assert begun.entries[|t.entries|] == e && NewAssembly(room, p, now) == e;
    TakeAnswers(codec, e, p, piece, now);
    TakeLeaves(codec, begun, |t.entries|, room, p, piece, now);
  }

  lemma StartTable(es: seq<Assembly>, ttl: nat, max: nat, room: Uuid, kind: Kind, now: int)
    requires 0 < max && Inv(max, es)
    ensures var t, rest := MakeRoom(Expire(Table(es, []), ttl, now), room, kind, max), Rivals(es, ttl, room, kind, now);
            && Distinct(t.entries)
            && (forall x :: x in t.entries <==> x in rest && (|rest| == max ==> x != rest[Oldest(rest)]))
            && forall x :: x in rest <==> x in es && Unexpired(ttl, now, x) && !(x.room == room && x.kind == kind)
  {
    hide Expire, EntryOk, Apart, Rivals;
    var t := Expire(Table(es, []), ttl, now);
    RivalsAre(t, es, ttl, room, kind, now);
    RivalsDistinct(es, ttl, room, kind, now);
    var rest := Retain(t, (e: Assembly) => !(e.room == room && e.kind == kind));
    OneEvicted(rest, max);
    EvictDistinct(rest, max);
  }

  /** A later piece of an assembly that is not there is refused and changes nothing. */
  lemma LateAnswer<M>(cfg: Config<M>, es: seq<Assembly>, room: Uuid, p: Part, now: int, granted: bool, piece: Bytes)
    requires cfg.maxConcurrent > 0 && Inv(cfg.maxConcurrent, es)
    requires LegalHeader(p) && Carried(p, piece) && p.index > 0 && !Has(es, cfg.ttl, room, p, now)
    ensures var (t, r) := Push(cfg, es, room, p, now, granted);
            && r == Err(OutOfOrder(0, p.index))
            && forall x :: x in t.entries <==> x in es && Unexpired(cfg.ttl, now, x)
  {
    hide LegalHeader, Carried, Base64.FromBase64, EntryOk, Expire, MakeRoom, ValidateHeader;
    HeaderExactly(p);
    CarriedDecodes(p, piece);
    EncodedBound(p.data);
    LiveMembers(es, cfg.ttl, now);
    var live := Expire(Table(es, []), cfg.ttl, now).entries;
    var found := Find(live, room, p.assemblyId);
    assert found.Some? ==> live[found.value] in live && Targets(room, p, live[found.value]);
  }

  /** A part that carries no piece costs its assembly; one with an illegal header costs
      nothing. */
  lemma IllegalAnswer<M>(cfg: Config<M>, es: seq<Assembly>, room: Uuid, p: Part, now: int, granted: bool)
    requires cfg.maxConcurrent > 0 && Inv(cfg.maxConcurrent, es)
    requires !LegalHeader(p) || forall piece :: !Carried(p, piece)
    ensures var (t, r) := Push(cfg, es, room, p, now, granted);
            && (LegalHeader(p) ==> r == Err(BadPiece(p.index)))
            && (!LegalHeader(p) ==> ValidateHeader(p) == Err(ValidateHeader(p).error) && r == Err(ValidateHeader(p).error))
            && forall x :: x in t.entries
                 <==> x in es && Unexpired(cfg.ttl, now, x) && (LegalHeader(p) ==> !Targets(room, p, x))
  {
    hide LegalHeader, Carried, Base64.FromBase64, EntryOk, Expire, MakeRoom, ValidateHeader, Find;
    HeaderExactly(p);
    LiveMembers(es, cfg.ttl, now);
    var live := Expire(Table(es, []), cfg.ttl, now);
    KeptMembers(live.entries, (e: Assembly) => !(e.room == room && e.id == p.assemblyId));
    if Base64.FromBase64(p.data).Some? {
      CarriedDecodes(p, Base64.FromBase64(p.data).value);
    }
  }

  // ----- what a sender learns from an answer -----

  /** "More expected" is never said of a piece that is not held. */
  lemma MoreExpectedMeansHeld<M>(cfg: Config<M>, es: seq<Assembly>, room: Uuid, p: Part, now: int, granted: bool)
      returns (e: Assembly)
    requires cfg.maxConcurrent > 0 && Inv(cfg.maxConcurrent, es)
    requires Push(cfg, es, room, p, now, granted).1 == Ok(None)
    ensures e in Push(cfg, es, room, p, now, granted).0.entries && Targets(room, p, e) && SameAnnouncement(e, p)
    ensures EntryOk(e) && p.index < |e.ends| && Carried(p, PieceOf(e, p.index))
  {
    var t := Push(cfg, es, room, p, now, granted).0;
    hide Push, PushFront, LegalHeader, Carried, EntryOk, PieceOf, Rivals;
    PushKeepsInv(cfg, es, room, p, now, granted);
    if !LegalHeader(p) || forall piece :: !Carried(p, piece) {
      IllegalAnswer(cfg, es, room, p, now, granted);
    } else {
      var piece :| Carried(p, piece);
      if Has(es, cfg.ttl, room, p, now) {
        var e0 :| e0 in es && Targets(room, p, e0) && Unexpired(cfg.ttl, now, e0);
        KnownAnswer(cfg, es, room, p, now, granted, piece, e0);
        EntryPartitioned(e0);
        e := HeldAfter(t, cfg.maxConcurrent, e0, room, p, piece, now);
      } else if p.index == 0 {
        StartAnswer(cfg, es, room, p, now, granted, piece);
        e := HeldAfter(t, cfg.maxConcurrent, Empty(room, p, now), room, p, piece, now);
      } else {
        LateAnswer(cfg, es, room, p, now, granted, piece);
      }
    }
  }

  lemma HeldAfter(t: Table, max: nat, e0: Assembly, room: Uuid, p: Part, piece: Bytes, now: int) returns (e: Assembly)
    requires Inv(max, t.entries) && Partitioned(e0) && Targets(room, p, e0)
    requires Carried(p, piece) && SameAnnouncement(e0, p) && p.index <= |e0.ends|
    requires p.index < |e0.ends| ==> PieceOf(e0, p.index) == piece
    requires Left(t.entries, room, e0, p, piece, now, true)
    ensures e in t.entries && Targets(room, p, e) && SameAnnouncement(e, p)
    ensures EntryOk(e) && p.index < |e.ends| && PieceOf(e, p.index) == piece
  {
    hide Carried, PieceOf;
    e := if p.index < |e0.ends| then e0 else Extend(e0, piece, now);
    if p.index == |e0.ends| {
      ExtendPieces(e0, piece, now);
    }
  }

  lemma HeaderNotOrder(p: Part, k: nat)
    ensures ValidateHeader(p) != Err(OutOfOrder(k, p.index))
  {}

  lemma AnsweredOrder<M>(codec: Codec<M>, e: Assembly, p: Part, piece: Bytes, r: PushResult<M>, k: nat)
    requires EndsOk(e) && Answered(codec, e, p, piece, r) && p.index < p.total
    ensures r == Err(OutOfOrder(k, p.index)) <==> SameAnnouncement(e, p) && k == |e.ends| < p.index
  {
    hide PieceOf;
  }

  lemma OnlyOne(es: seq<Assembly>, room: Uuid, p: Part, e: Assembly)
    requires Distinct(es) && e in es && Targets(room, p, e)
    ensures forall x :: x in es && Targets(room, p, x) ==> x == e
  {
    FindUnique(es, e);
  }

  /** "Out of order" names the number of pieces held, and is said exactly if the part is
      sound and ahead of them. */
  lemma OutOfOrderExactlyWhen<M>(cfg: Config<M>, es: seq<Assembly>, room: Uuid, p: Part, now: int, granted: bool, k: nat)
    requires cfg.maxConcurrent > 0 && Inv(cfg.maxConcurrent, es)
    ensures Push(cfg, es, room, p, now, granted).1 == Err(OutOfOrder(k, p.index))
            <==> && LegalHeader(p) && (exists piece :: Carried(p, piece)) && k < p.index
                 && (if Has(es, cfg.ttl, room, p, now) then
                       exists e :: e in es && Targets(room, p, e) && Unexpired(cfg.ttl, now, e) && SameAnnouncement(e, p) && |e.ends| == k
                     else k == 0)
  {
    assert LegalHeader(p) ==> p.index < p.total;
    hide Push, PushFront, LegalHeader, Carried, EntryOk, PieceOf, Left, Targets, SameAnnouncement, Apart, Answered, Rivals, ValidateHeader;
    if !LegalHeader(p) || forall piece :: !Carried(p, piece) {
      IllegalAnswer(cfg, es, room, p, now, granted);
      HeaderNotOrder(p, k);
    } else {
      var piece :| Carried(p, piece);
      if Has(es, cfg.ttl, room, p, now) {
        var e :| e in es && Targets(room, p, e) && Unexpired(cfg.ttl, now, e);
        KnownAnswer(cfg, es, room, p, now, granted, piece, e);
        OnlyOne(es, room, p, e);
        AnsweredOrder(cfg.codec, e, p, piece, Push(cfg, es, room, p, now, granted).1, k);
      } else if p.index == 0 {
        StartAnswer(cfg, es, room, p, now, granted, piece);
        if granted {
          AnsweredOrder(cfg.codec, Empty(room, p, now), p, piece, Push(cfg, es, room, p, now, granted).1, k);
        }
      } else {
        LateAnswer(cfg, es, room, p, now, granted, piece);
      }
    }
  }

  lemma AnsweredOther<M>(codec: Codec<M>, e: Assembly, p: Part, piece: Bytes, r: PushResult<M>)
    requires EndsOk(e) && Answered(codec, e, p, piece, r) && p.index < p.total
    ensures r != Err(BadPiece(p.index)) && r != Err(BudgetExhausted)
  {
    hide PieceOf;
  }

  /** A bad piece and an exhausted budget are blamed exactly if they are to blame. */
  lemma BlamedExactlyWhen<M>(cfg: Config<M>, es: seq<Assembly>, room: Uuid, p: Part, now: int, granted: bool)
    requires cfg.maxConcurrent > 0 && Inv(cfg.maxConcurrent, es)
    ensures Push(cfg, es, room, p, now, granted).1 == Err(BadPiece(p.index))
            <==> LegalHeader(p) && forall piece :: !Carried(p, piece)
    ensures Push(cfg, es, room, p, now, granted).1 == Err(BudgetExhausted)
            <==> && LegalHeader(p) && (exists piece :: Carried(p, piece))
                 && p.index == 0 && !Has(es, cfg.ttl, room, p, now) && !granted
  {
    var r := Push(cfg, es, room, p, now, granted).1;
    assert LegalHeader(p) ==> p.index < p.total;
    assert ValidateHeader(p) != Err(BudgetExhausted) && ValidateHeader(p) != Err(BadPiece(p.index));
    hide Push, PushFront, LegalHeader, Carried, EntryOk, PieceOf, Left, Targets, Answered, Rivals, ValidateHeader;
    if !LegalHeader(p) || forall piece :: !Carried(p, piece) {
      IllegalAnswer(cfg, es, room, p, now, granted);
    } else {
      var piece :| Carried(p, piece);
      if Has(es, cfg.ttl, room, p, now) {
        var e :| e in es && Targets(room, p, e) && Unexpired(cfg.ttl, now, e);
        KnownAnswer(cfg, es, room, p, now, granted, piece, e);
        AnsweredOther(cfg.codec, e, p, piece, r);
      } else if p.index == 0 {
        StartAnswer(cfg, es, room, p, now, granted, piece);
        if granted {
          AnsweredOther(cfg.codec, Empty(room, p, now), p, piece, r);
        }
      } else {
        LateAnswer(cfg, es, room, p, now, granted, piece);
      }
    }
  }
}
