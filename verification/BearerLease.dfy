/** The lease that the bearer calls add up to, over whole runs with a monotone clock
    (apps/server/src/db.rs:309-484). */
module BearerLease {
  import opened Wrappers
  import opened Words
  import opened BearerTable

  datatype Call =
    | Insert(user: UserId, hash: Hash, expires: int, epoch: u64, room: Option<RoomId>)
    | Check(hash: Hash)
    | Use(hash: Hash)
    | Revoke(hash: Hash)
    | Purge

  /** `now` is the clock when the call starts, `later` its second reading. */
  datatype Event = Event(call: Call, now: int, later: int)

  datatype Answer = Done | Failed(error: DbError) | Found(info: Option<Info>)

  /** A server: its identities and its configured lifetime. */
  datatype Server = Server(identities: Identities, ttl: int)

  function Lookup(r: Result<Option<Info>, DbError>): Answer {
    match r case Ok(i) => Found(i) case Err(e) => Failed(e)
  }

  function After(s: Server, t: Table, e: Event): Table {
    match e.call
    case Insert(user, h, expires, epoch, room) =>
      var row := NewRow(s.identities, user, expires, epoch, room);
      if row.Ok? && h !in t then t[h := row.value] else t
    case Check(h) => t
    case Use(h) => Renewed(t, h, s.ttl, e.now, e.later)
    case Revoke(h) => t - {h}
    case Purge => Unexpired(t, e.now)
  }

  function Reply(s: Server, t: Table, e: Event): Answer {
    match e.call
    case Insert(user, h, expires, epoch, room) =>
      var row := NewRow(s.identities, user, expires, epoch, room);
      if row.Err? then Failed(row.error) else if h in t then Failed(HashTaken) else Done
    case Check(h) => Lookup(Validate(t, h, e.now))
    case Use(h) => Lookup(RenewedInfo(t, h, s.ttl, e.now, e.later))
    case Revoke(h) => Done
    case Purge => Done
  }

  function Run(s: Server, t: Table, es: seq<Event>): Table {
    if es == [] then t else After(s, Run(s, t, es[..|es| - 1]), es[|es| - 1])
  }

  /** The reply to event `k`. */
  function ReplyAt(s: Server, t: Table, es: seq<Event>, k: nat): Answer
    requires k < |es|
  {
    Reply(s, Run(s, t, es[..k]), es[k])
  }

  /** Readings never go back, within a call or from call to call. */
  predicate Monotone(start: int, es: seq<Event>) {
    && (forall i :: 0 <= i < |es| ==> start <= es[i].now <= es[i].later)
    && (forall i, j :: 0 <= i < j < |es| ==> es[i].later <= es[j].now)
  }

  predicate IsInsert(e: Event, h: Hash) { e.call.Insert? && e.call.hash == h }

  predicate Asks(e: Event, h: Hash) { e.call == Check(h) || e.call == Use(h) }

  predicate NoInsert(es: seq<Event>, h: Hash) {
    forall i :: 0 <= i < |es| ==> !IsInsert(es[i], h)
  }

  /** Every stored key has 32 bytes; `insert_bearer` sees to it. */
  predicate WellFormed(t: Table) {
    forall h :: h in t ==> |t[h].pubkey| == 32
  }

  lemma StepWellFormed(s: Server, t: Table, e: Event)
    requires WellFormed(t)
    ensures WellFormed(After(s, t, e))
  {}

  lemma {:induction false} RunWellFormed(s: Server, t: Table, es: seq<Event>)
    requires WellFormed(t)
    ensures WellFormed(Run(s, t, es))
  {
    if es != [] {
      RunWellFormed(s, t, es[..|es| - 1]);
      StepWellFormed(s, Run(s, t, es[..|es| - 1]), es[|es| - 1]);
    }
  }

  lemma PrefixMonotone(start: int, es: seq<Event>, k: nat)
    requires Monotone(start, es) && k <= |es|
    ensures Monotone(start, es[..k])
  {}

  lemma SliceMonotone(start: int, es: seq<Event>, i: nat, k: nat, at: int)
    requires Monotone(start, es) && i <= k <= |es| && (i < k ==> at <= es[i].now)
    ensures Monotone(at, es[i..k])
  {
    var slice := es[i..k];
    assert forall j :: 0 <= j < |slice| ==> slice[j] == es[i + j];
    forall j | 0 <= j < |slice|
      ensures at <= slice[j].now <= slice[j].later
    {
      assert slice[j] == es[i + j];
    }
  }

  lemma SliceNoInsert(es: seq<Event>, h: Hash, i: nat, k: nat)
    requires NoInsert(es, h) && i <= k <= |es|
    ensures NoInsert(es[i..k], h)
  {
    var slice := es[i..k];
    assert forall j :: 0 <= j < |slice| ==> slice[j] == es[i + j];
  }

  /** The last reading of the latest use of `h`, or `start`. */
  function LastUse(h: Hash, start: int, es: seq<Event>): int {
    if es == [] then start
    else if es[|es| - 1].call == Use(h) then es[|es| - 1].later
    else LastUse(h, start, es[..|es| - 1])
  }

  lemma {:induction false} LastUseBounds(h: Hash, start: int, es: seq<Event>)
    requires Monotone(start, es)
    ensures start <= LastUse(h, start, es)
    ensures es != [] ==> LastUse(h, start, es) <= es[|es| - 1].later
  {
    if es != [] {
      PrefixMonotone(start, es, |es| - 1);
      LastUseBounds(h, start, es[..|es| - 1]);
    }
  }

  // ----- in use: valid forever -----

  /** Good for half a lifetime from `since`. */
  predicate Fresh(s: Server, t: Table, h: Hash, since: int) {
    h in t && t[h].expires >= since + Half(s.ttl)
  }

  /** Every use of `h` follows the one before by less than half a lifetime. */
  predicate InUse(s: Server, h: Hash, start: int, es: seq<Event>) {
    forall k :: 0 <= k < |es| && es[k].call == Use(h) ==> es[k].later - LastUse(h, start, es[..k]) < Half(s.ttl)
  }

  lemma StepFresh(s: Server, t: Table, h: Hash, since: int, e: Event)
    requires WellFormed(t) && Fresh(s, t, h, since) && s.ttl >= 0 && e.now <= e.later
    requires e.call != Revoke(h) && e.later < since + Half(s.ttl)
    ensures Fresh(s, After(s, t, e), h, if e.call == Use(h) then e.later else since)
    ensures Asks(e, h) ==> Reply(s, t, e).Found? && Reply(s, t, e).info.Some?
  {}

  /** After the run: good for half a lifetime, or more than that has gone by. */
  lemma {:induction false} StaysFresh(s: Server, t: Table, h: Hash, start: int, es: seq<Event>)
    requires WellFormed(t) && Fresh(s, t, h, start) && s.ttl >= 0 && Monotone(start, es) && InUse(s, h, start, es)
    requires forall i :: 0 <= i < |es| ==> es[i].call != Revoke(h)
    ensures Fresh(s, Run(s, t, es), h, LastUse(h, start, es))
            || (es != [] && es[|es| - 1].later >= LastUse(h, start, es) + Half(s.ttl))
  {
    hide After, Fresh, WellFormed;
    if es != [] {
      var n := |es| - 1;
      PrefixMonotone(start, es, n);
      assert forall k :: 0 <= k < n ==> es[..n][..k] == es[..k];
      StaysFresh(s, t, h, start, es[..n]);
      RunWellFormed(s, t, es[..n]);
      var since := LastUse(h, start, es[..n]);
      if es[n].later < since + Half(s.ttl) {
        StepFresh(s, Run(s, t, es[..n]), h, since, es[n]);
      }
    }
  }

  /** A bearer that is used often enough never runs out: whatever else happens short
      of revoking it, every use, and every look at it within half a lifetime of the
      last use, finds it. */
  lemma InUseStaysValid(s: Server, t: Table, h: Hash, start: int, es: seq<Event>, k: nat)
    requires WellFormed(t) && Fresh(s, t, h, start) && s.ttl >= 0 && Monotone(start, es) && InUse(s, h, start, es)
    requires forall i :: 0 <= i < |es| ==> es[i].call != Revoke(h)
    requires k < |es| && Asks(es[k], h) && es[k].later - LastUse(h, start, es[..k]) < Half(s.ttl)
    ensures ReplyAt(s, t, es, k).Found? && ReplyAt(s, t, es, k).info.Some?
  {
    hide Fresh, WellFormed, Reply, Run;
    PrefixMonotone(start, es, k);
    assert forall i :: 0 <= i < k ==> es[..k][..i] == es[..i];
    StaysFresh(s, t, h, start, es[..k]);
    RunWellFormed(s, t, es[..k]);
    StepFresh(s, Run(s, t, es[..k]), h, LastUse(h, start, es[..k]), es[k]);
  }

  /** A bearer issued for a lifetime starts out fresh, and ends after one. */
  lemma Issued(s: Server, t: Table, e: Event)
    requires e.call.Insert? && e.call.expires == e.now + s.ttl && s.ttl >= 0 && Reply(s, t, e) == Done
    ensures Fresh(s, After(s, t, e), e.call.hash, e.now) && EndsBy(After(s, t, e), e.call.hash, e.now + s.ttl)
  {}

  /** What a use leaves: a bearer with half a lifetime left keeps its expiry, one with less
      gets a whole lifetime from the second reading on, and that is what is reported. */
  lemma UseLeaves(s: Server, t: Table, h: Hash, e: Event)
    requires WellFormed(t) && e.call == Use(h) && e.now <= e.later && s.ttl >= 0
    requires h in t && t[h].expires > e.later
    ensures var expires := if 2 * (t[h].expires - e.later) + 2 <= s.ttl then e.later + s.ttl else t[h].expires;
            && After(s, t, e) == t[h := t[h].(expires := expires)]
            && Reply(s, t, e) == Found(Some(Info(expires, t[h].userId, t[h].pubkey, LoadEpoch(t[h].epoch), t[h].room)))
  {
    assert t[h := t[h]] == t;
  }

  // ----- silent: ends -----

  /** Runs out no later than `at`. */
  predicate EndsBy(t: Table, h: Hash, at: int) {
    h !in t || t[h].expires <= at
  }

  lemma StepEndsBy(s: Server, t: Table, h: Hash, last: int, e: Event)
    requires EndsBy(t, h, last + s.ttl) && !IsInsert(e, h) && last <= e.later
    ensures EndsBy(After(s, t, e), h, (if e.call == Use(h) then e.later else last) + s.ttl)
  {}

  lemma {:induction false} RunEndsBy(s: Server, t: Table, h: Hash, start: int, es: seq<Event>)
    requires EndsBy(t, h, start + s.ttl) && NoInsert(es, h) && Monotone(start, es)
    ensures EndsBy(Run(s, t, es), h, LastUse(h, start, es) + s.ttl)
  {
    hide After, EndsBy;
    if es != [] {
      var n := |es| - 1;
      PrefixMonotone(start, es, n);
      RunEndsBy(s, t, h, start, es[..n]);
      LastUseBounds(h, start, es[..n]);
      StepEndsBy(s, Run(s, t, es[..n]), h, LastUse(h, start, es[..n]), es[n]);
    }
  }

  /** A lifetime without a use ends the bearer, however it was looked at meanwhile. */
  lemma SilenceEnds(s: Server, t: Table, h: Hash, start: int, es: seq<Event>, k: nat)
    requires EndsBy(t, h, start + s.ttl) && NoInsert(es, h) && Monotone(start, es)
    requires k < |es| && Asks(es[k], h) && es[k].now >= LastUse(h, start, es[..k]) + s.ttl
    ensures ReplyAt(s, t, es, k) == Found(None)
  {
    PrefixMonotone(start, es, k);
    RunEndsBy(s, t, h, start, es[..k]);
    hide Run;
  }

  lemma StepEnded(s: Server, t: Table, h: Hash, at: int, e: Event)
    requires EndsBy(t, h, at) && !IsInsert(e, h) && at <= e.now
    ensures EndsBy(After(s, t, e), h, at)
    ensures Asks(e, h) ==> Reply(s, t, e) == Found(None)
  {}

  lemma {:induction false} RunEnded(s: Server, t: Table, h: Hash, at: int, es: seq<Event>)
    requires EndsBy(t, h, at) && NoInsert(es, h) && Monotone(at, es)
    ensures EndsBy(Run(s, t, es), h, at)
  {
    hide After, EndsBy;
    if es != [] {
      PrefixMonotone(at, es, |es| - 1);
      RunEnded(s, t, h, at, es[..|es| - 1]);
      StepEnded(s, Run(s, t, es[..|es| - 1]), h, at, es[|es| - 1]);
    }
  }

  lemma {:induction false} RunSplits(s: Server, t: Table, es: seq<Event>, i: nat, k: nat)
    requires i <= k <= |es|
    ensures Run(s, Run(s, t, es[..i]), es[i..k]) == Run(s, t, es[..k])
    decreases k
  {
    hide After;
    if i < k {
      RunSplits(s, t, es, i, k - 1);
      assert es[i..k][..k - 1 - i] == es[i..k - 1] && es[..k][..k - 1] == es[..k - 1];
    } else {
      assert es[i..k] == [];
    }
  }

  /** A bearer once rejected is never accepted again. */
  lemma RejectedForGood(s: Server, t: Table, h: Hash, start: int, es: seq<Event>, i: nat, k: nat)
    requires NoInsert(es, h) && Monotone(start, es) && i < k < |es|
    requires Asks(es[i], h) && Asks(es[k], h) && ReplyAt(s, t, es, i) == Found(None)
    ensures ReplyAt(s, t, es, k) == Found(None)
  {
    var u := Run(s, t, es[..i]);
    assert EndsBy(u, h, es[i].now);
    assert es[i].now <= es[k].now;
    hide Reply, After, EndsBy, Run, Asks, Monotone, IsInsert;
    SliceMonotone(start, es, i, k, es[i].now);
    SliceNoInsert(es, h, i, k);
    RunEnded(s, u, h, es[i].now, es[i..k]);
    RunSplits(s, t, es, i, k);
    StepEnded(s, Run(s, t, es[..k]), h, es[i].now, es[k]);
  }

  // ----- a bearer stands for whom it was issued to -----

  /** The hash a call is about. */
  function Concerns(c: Call): Option<Hash> {
    match c
    case Insert(_, h, _, _, _) => Some(h)
    case Check(h) => Some(h)
    case Use(h) => Some(h)
    case Revoke(h) => Some(h)
    case Purge => None
  }

  /** A call leaves every other bearer alone, and a purge every bearer that has not expired. */
  lemma OthersUntouched(s: Server, t: Table, e: Event, g: Hash)
    requires Concerns(e.call) != Some(g)
    requires e.call.Purge? && g in t ==> t[g].expires > e.now
    ensures g in After(s, t, e) <==> g in t
    ensures g in t ==> After(s, t, e)[g] == t[g]
  {}

  /** Whatever happens short of issuing it again, a row keeps its user, key, epoch and room. */
  lemma {:induction false} BindingKept(s: Server, t: Table, es: seq<Event>, h: Hash)
    requires NoInsert(es, h)
    ensures h in Run(s, t, es) ==> h in t && Run(s, t, es)[h] == t[h].(expires := Run(s, t, es)[h].expires)
  {
    if es != [] {
      SliceNoInsert(es, h, 0, |es| - 1);
      assert es[0..|es| - 1] == es[..|es| - 1];
      BindingKept(s, t, es[..|es| - 1], h);
    }
  }

  /** So whoever finds a bearer is told for whom, with which key, epoch and room it was
      issued. */
  lemma FoundAsIssued(s: Server, t: Table, es: seq<Event>, i: nat, k: nat)
    requires i < k < |es| && es[i].call.Insert? && ReplyAt(s, t, es, i) == Done
    requires NoInsert(es[i + 1..k], es[i].call.hash) && Asks(es[k], es[i].call.hash)
    requires ReplyAt(s, t, es, k).Found? && ReplyAt(s, t, es, k).info.Some?
    ensures var c, info := es[i].call, ReplyAt(s, t, es, k).info.value;
            && c.user in s.identities
            && info.userId == c.user && info.pubkey == s.identities[c.user] && info.epoch == c.epoch && info.room == c.room
  {
    var c := es[i].call;
    RunSplits(s, t, es, i + 1, k);
    assert es[..i + 1][..i] == es[..i];
    BindingKept(s, Run(s, t, es[..i + 1]), es[i + 1..k], c.hash);
    EpochBack(c.epoch);
    hide Run, StoreEpoch, LoadEpoch;
  }

  lemma EpochBack(e: u64)
    ensures LoadEpoch(StoreEpoch(e)) == e
    ensures StoreEpoch(e) == e || StoreEpoch(e) == e - 0x1_0000_0000_0000_0000
  {}

  // ----- renewals are rare -----

  predicate RenewsAt(s: Server, t: Table, h: Hash, es: seq<Event>, k: nat)
    requires k < |es|
  {
    es[k].call == Use(h) && Renews(Run(s, t, es[..k]), h, s.ttl, es[k].now, es[k].later)
  }

  /** Gone by `since`, or good for a whole lifetime after it. */
  predicate Settled(s: Server, t: Table, h: Hash, since: int) {
    h !in t || t[h].expires <= since || t[h].expires >= since + s.ttl
  }

  lemma StepSettled(s: Server, t: Table, h: Hash, since: int, e: Event)
    requires Settled(s, t, h, since) && !IsInsert(e, h) && since <= e.now <= e.later
    ensures Settled(s, After(s, t, e), h, since)
  {}

  lemma {:induction false} RunSettled(s: Server, t: Table, h: Hash, since: int, es: seq<Event>)
    requires Settled(s, t, h, since) && NoInsert(es, h) && Monotone(since, es)
    ensures Settled(s, Run(s, t, es), h, since)
  {
    hide After, Settled;
    if es != [] {
      PrefixMonotone(since, es, |es| - 1);
      RunSettled(s, t, h, since, es[..|es| - 1]);
      StepSettled(s, Run(s, t, es[..|es| - 1]), h, since, es[|es| - 1]);
    }
  }

  /** Two renewals of a bearer are more than half a lifetime apart, so at most one
      write per half lifetime is made for it. */
  lemma RenewalsApart(s: Server, t: Table, h: Hash, start: int, es: seq<Event>, i: nat, k: nat)
    requires NoInsert(es, h) && Monotone(start, es) && i < k < |es|
    requires RenewsAt(s, t, h, es, i) && RenewsAt(s, t, h, es, k)
    ensures es[k].later - es[i].later > s.ttl - Half(s.ttl)
    ensures s.ttl >= 0 ==> es[k].later - es[i].later >= Half(s.ttl)
  {
    var u := Run(s, t, es[..i + 1]);
    assert es[..i + 1][..i] == es[..i];
    assert Settled(s, u, h, es[i].later);
    assert RenewsAt(s, t, h, es, k) ==> Renews(Run(s, t, es[..k]), h, s.ttl, es[k].now, es[k].later);
    hide Run, After, RenewsAt, IsInsert;
    SliceMonotone(start, es, i + 1, k, es[i].later);
    SliceNoInsert(es, h, i + 1, k);
    RunSettled(s, u, h, es[i].later, es[i + 1..k]);
    RunSplits(s, t, es, i + 1, k);
  }

  // ----- purging is invisible -----

  /** The events with every purge taken out. */
  function WithoutPurges(es: seq<Event>): seq<Event> {
    if es == [] then []
    else if es[|es| - 1].call.Purge? then WithoutPurges(es[..|es| - 1])
    else WithoutPurges(es[..|es| - 1]) + [es[|es| - 1]]
  }

  /** Each hash is issued once, and none was in the table before. */
  predicate IssuedOnce(t: Table, es: seq<Event>) {
    && (forall i :: 0 <= i < |es| && es[i].call.Insert? ==> es[i].call.hash !in t)
    && (forall i, j :: 0 <= i < j < |es| && es[i].call.Insert? && es[j].call.Insert? ==> es[i].call.hash != es[j].call.hash)
  }

  /** `u` is `t` with some rows that had run out by `now` removed. */
  predicate Purged(u: Table, t: Table, now: int) {
    && (forall h :: h in u ==> h in t && u[h] == t[h])
    && (forall h :: h in t && h !in u ==> t[h].expires <= now)
  }

  lemma StepPurged(s: Server, u: Table, t: Table, before: int, e: Event)
    requires Purged(u, t, before) && before <= e.now <= e.later && !Reissues(s, u, t, e)
    ensures Purged(After(s, u, e), if e.call.Purge? then t else After(s, t, e), e.later)
  {}

  /** An insertion that finds its hash in the full table but no longer in the purged one. */
  predicate Reissues(s: Server, u: Table, t: Table, e: Event) {
    && e.call.Insert? && NewRow(s.identities, e.call.user, e.call.expires, e.call.epoch, e.call.room).Ok?
    && e.call.hash in t && e.call.hash !in u
  }

  /** Such an insertion is the one call that purging can change the reply to. */
  lemma ReplyPurged(s: Server, u: Table, t: Table, before: int, e: Event)
    requires Purged(u, t, before) && before <= e.now <= e.later && !e.call.Purge?
    ensures Reply(s, u, e) == Reply(s, t, e) <==> !Reissues(s, u, t, e)
  {}

  /** Event `k` issues a hash again whose expired row has been purged. */
  predicate ReissuesAt(s: Server, t: Table, es: seq<Event>, k: nat)
    requires k < |es|
  {
    Reissues(s, Run(s, t, es[..k]), Run(s, t, WithoutPurges(es[..k])), es[k])
  }

  lemma PrefixReissuesNothing(s: Server, t: Table, es: seq<Event>, n: nat)
    requires n <= |es| && forall k :: 0 <= k < n ==> !ReissuesAt(s, t, es, k)
    ensures forall k :: 0 <= k < n ==> !ReissuesAt(s, t, es[..n], k)
  {
    hide Run, WithoutPurges, Reissues;
    forall k | 0 <= k < n
      ensures !ReissuesAt(s, t, es[..n], k)
    {
      assert es[..n][..k] == es[..k] && !ReissuesAt(s, t, es, k);
    }
  }

  lemma {:induction false} RunPurged(s: Server, t: Table, start: int, es: seq<Event>)
    requires Monotone(start, es) && forall k :: 0 <= k < |es| ==> !ReissuesAt(s, t, es, k)
    ensures Purged(Run(s, t, es), Run(s, t, WithoutPurges(es)), if es == [] then start else es[|es| - 1].later)
  {
    if es == [] {
      PurgedSame(t, start);
    } else {
      var n := |es| - 1;
      assert !ReissuesAt(s, t, es, n);
      hide After, Purged, Reissues;
      PrefixMonotone(start, es, n);
      PrefixReissuesNothing(s, t, es, n);
      RunPurged(s, t, start, es[..n]);
      var before := if n == 0 then start else es[n - 1].later;
      StepPurged(s, Run(s, t, es[..n]), Run(s, t, WithoutPurges(es[..n])), before, es[n]);
    }
  }

  lemma PurgedSame(t: Table, now: int)
    ensures Purged(t, t, now)
  {}

  /** Event `k` is answered as if no purge had ever run. */
  predicate SameReply(s: Server, t: Table, es: seq<Event>, k: nat)
    requires k < |es|
  {
    es[k].call.Purge? || ReplyAt(s, t, es, k) == Reply(s, Run(s, t, WithoutPurges(es[..k])), es[k])
  }

  lemma FirstDifference(s: Server, t: Table, start: int, es: seq<Event>, k: nat)
    requires Monotone(start, es) && k < |es| && forall j :: 0 <= j < k ==> !ReissuesAt(s, t, es, j)
    ensures SameReply(s, t, es, k) <==> !ReissuesAt(s, t, es, k)
  {
    hide Purged, Run, Reply, Reissues, WithoutPurges;
    PrefixMonotone(start, es, k);
    PrefixReissuesNothing(s, t, es, k);
    RunPurged(s, t, start, es[..k]);
    var before := if k == 0 then start else es[k - 1].later;
    if es[k].call.Purge? {
      PurgeReissuesNothing(s, Run(s, t, es[..k]), Run(s, t, WithoutPurges(es[..k])), es[k]);
    } else {
      ReplyPurged(s, Run(s, t, es[..k]), Run(s, t, WithoutPurges(es[..k])), before, es[k]);
    }
  }

  lemma PurgeReissuesNothing(s: Server, u: Table, t: Table, e: Event)
    requires e.call.Purge?
    ensures !Reissues(s, u, t, e)
  {}

  /** Purging at any moments changes no reply exactly if no hash is issued again after
      its expired row was purged. */
  lemma PurgesInvisible(s: Server, t: Table, start: int, es: seq<Event>)
    requires Monotone(start, es)
    ensures (forall k :: 0 <= k < |es| ==> SameReply(s, t, es, k)) <==> (forall k :: 0 <= k < |es| ==> !ReissuesAt(s, t, es, k))
  {
    hide SameReply, ReissuesAt, Monotone;
    if forall k :: 0 <= k < |es| ==> !ReissuesAt(s, t, es, k) {
      forall k | 0 <= k < |es|
        ensures SameReply(s, t, es, k)
      {
        FirstDifference(s, t, start, es, k);
      }
    } else {
      var k :| 0 <= k < |es| && ReissuesAt(s, t, es, k);
      var i := FirstReissue(s, t, es, k);
      FirstDifference(s, t, start, es, i);
    }
  }

  lemma {:induction false} FirstReissue(s: Server, t: Table, es: seq<Event>, k: nat) returns (i: nat)
    requires k < |es| && ReissuesAt(s, t, es, k)
    ensures i < |es| && ReissuesAt(s, t, es, i) && forall j :: 0 <= j < i ==> !ReissuesAt(s, t, es, j)
    decreases k
  {
    hide ReissuesAt;
    i := k;
    if exists j :: 0 <= j < k && ReissuesAt(s, t, es, j) {
      var j :| 0 <= j < k && ReissuesAt(s, t, es, j);
      i := FirstReissue(s, t, es, j);
    }
  }

  lemma {:induction false} RunKeys(s: Server, t: Table, es: seq<Event>, h: Hash)
    requires h in Run(s, t, es)
    ensures h in t || exists i :: 0 <= i < |es| && IsInsert(es[i], h)
  {
    if es != [] {
      var n := |es| - 1;
      if IsInsert(es[n], h) {
      } else {
        assert h in Run(s, t, es[..n]);
        RunKeys(s, t, es[..n], h);
        if h !in t {
          var i :| 0 <= i < n && IsInsert(es[..n][i], h);
          assert IsInsert(es[i], h);
        }
      }
    }
  }

  lemma {:induction false} WithoutPurgesInserts(es: seq<Event>, h: Hash)
    ensures (exists i :: 0 <= i < |WithoutPurges(es)| && IsInsert(WithoutPurges(es)[i], h)) ==>
              exists i :: 0 <= i < |es| && IsInsert(es[i], h)
  {
    if exists i :: 0 <= i < |WithoutPurges(es)| && IsInsert(WithoutPurges(es)[i], h) {
      var n := |es| - 1;
      var i :| 0 <= i < |WithoutPurges(es)| && IsInsert(WithoutPurges(es)[i], h);
      if i < |WithoutPurges(es[..n])| {
        assert IsInsert(WithoutPurges(es[..n])[i], h);
        WithoutPurgesInserts(es[..n], h);
        var j :| 0 <= j < n && IsInsert(es[..n][j], h);
        assert IsInsert(es[j], h);
      } else {
        assert IsInsert(es[n], h);
      }
    }
  }

  lemma FreshHash(s: Server, t: Table, es: seq<Event>)
    requires es != [] && IssuedOnce(t, es) && es[|es| - 1].call.Insert?
    ensures es[|es| - 1].call.hash !in Run(s, t, WithoutPurges(es[..|es| - 1]))
  {
    hide Run, WithoutPurges;
    var n := |es| - 1;
    var h := es[n].call.hash;
    if h in Run(s, t, WithoutPurges(es[..n])) {
      RunKeys(s, t, WithoutPurges(es[..n]), h);
      WithoutPurgesInserts(es[..n], h);
      assert false;
    }
  }

  /** In particular if each hash is issued once: hashes of random tokens. */
  lemma IssuedOnceNeverReissues(s: Server, t: Table, es: seq<Event>, k: nat)
    requires IssuedOnce(t, es) && k < |es|
    ensures !ReissuesAt(s, t, es, k)
  {
    hide Run, WithoutPurges;
    if es[k].call.Insert? {
      PrefixIssued(t, es, k + 1);
      FreshHash(s, t, es[..k + 1]);
      assert es[..k + 1][..k] == es[..k];
    }
  }

  lemma PrefixIssued(t: Table, es: seq<Event>, k: nat)
    requires IssuedOnce(t, es) && k <= |es|
    ensures IssuedOnce(t, es[..k])
  {}

  // ----- where the code is weaker than its documentation -----

  /** A use returns a later expiry than the table then holds exactly if the bearer ran
      out between its two clock readings; the very next look rejects it. */
  lemma LostRenewal(s: Server, t: Table, h: Hash, e: Event)
    requires WellFormed(t) && e.call == Use(h) && e.now <= e.later && s.ttl >= 2
    requires Reply(s, t, e).Found? && Reply(s, t, e).info.Some?
    ensures Reply(s, t, e).info.value.expires != After(s, t, e)[h].expires <==> t[h].expires <= e.later
    ensures t[h].expires <= e.later <==> Validate(After(s, t, e), h, e.later) == Ok(None)
  {}

  // ----- both do happen -----

  const Alice: Server := Server(map["alice" := seq(32, _ => 7)], 100)

  function Issue(h: Hash, now: int): Event {
    Event(Insert("alice", h, now + 100, 0, None), now, now)
  }

  lemma OneRow(h: Hash, now: int)
    ensures Run(Alice, map[], [Issue(h, now)]) == map[h := Row("alice", seq(32, _ => 7), now + 100, 0, None)]
  {
    var es := [Issue(h, now)];
    assert es[..0] == [] && Run(Alice, map[], es[..0]) == map[];
  }

  /** A bearer issued at 0 for 100 ms and used at 99 and 100 ms: the use reports 200 ms,
      the table keeps 100 ms, and the next look finds nothing. */
  lemma RenewalIsLost(h: Hash)
    ensures var es := [Issue(h, 0), Event(Use(h), 99, 100), Event(Check(h), 100, 100)];
            && Monotone(0, es)
            && ReplyAt(Alice, map[], es, 1) == Found(Some(Info(200, "alice", seq(32, _ => 7), 0, None)))
            && ReplyAt(Alice, map[], es, 2) == Found(None)
  {
    var es := [Issue(h, 0), Event(Use(h), 99, 100), Event(Check(h), 100, 100)];
    OneRow(h, 0);
    assert es[..1] == [Issue(h, 0)] && es[..2][..1] == es[..1];
    assert Run(Alice, map[], es[..2]) == After(Alice, Run(Alice, map[], es[..1]), es[1]);
  }

  /** A hash issued again after its expired row was purged is accepted; without the
      purge it is taken. */
  lemma PurgeLetsReissue(h: Hash)
    ensures var es := [Issue(h, 0), Event(Purge, 100, 100), Issue(h, 200)];
            && Monotone(0, es) && ReissuesAt(Alice, map[], es, 2)
            && ReplyAt(Alice, map[], es, 2) == Done
            && Reply(Alice, Run(Alice, map[], WithoutPurges(es[..2])), es[2]) == Failed(HashTaken)
  {
    var es := [Issue(h, 0), Event(Purge, 100, 100), Issue(h, 200)];
    OneRow(h, 0);
    assert es[..1] == [Issue(h, 0)] && es[..2][..1] == es[..1] && es[..1][..0] == [];
    assert Run(Alice, map[], es[..2]) == After(Alice, Run(Alice, map[], es[..1]), es[1]);
    assert After(Alice, Run(Alice, map[], es[..1]), es[1]) == map[];
    assert WithoutPurges([]) == [] && [] + [es[0]] == [es[0]];
    assert WithoutPurges(es[..1]) == es[..1];
    assert WithoutPurges(es[..2]) == es[..1];
  }
}
