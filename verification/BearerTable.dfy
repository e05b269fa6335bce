/** The bearer rows of apps/server/src/db.rs: one table, and what each call does to
    it. A call is atomic; the clock readings it takes are parameters. */
module BearerTable {
  import opened Wrappers
  import opened Words

  type Hash = Bytes
  type UserId = string
  type RoomId = string

  /** `connection_epoch as i64` on the way in, `as u64` on the way out. */
  function StoreEpoch(e: u64): i64 {
    if e < 0x8000_0000_0000_0000 then e else e - 0x1_0000_0000_0000_0000
  }

  function LoadEpoch(e: i64): u64 {
    if e >= 0 then e else e + 0x1_0000_0000_0000_0000
  }

  datatype Row = Row(userId: UserId, pubkey: Bytes, expires: int, epoch: i64, room: Option<RoomId>)

  datatype Info = Info(expires: int, userId: UserId, pubkey: Bytes, epoch: u64, room: Option<RoomId>)

  datatype DbError = RowNotFound | BadPubkey(length: nat) | HashTaken

  type Table = map<Hash, Row>

  type Identities = map<UserId, Bytes>

  /** Rust's `/` truncates toward zero. */
  function Half(ttl: int): int {
    if ttl >= 0 then ttl / 2 else -(-ttl / 2)
  }

  // ----- the calls -----

  function NewRow(ids: Identities, user: UserId, expires: int, epoch: u64, room: Option<RoomId>): Result<Row, DbError> {
    if user !in ids then Err(RowNotFound)
    else if |ids[user]| != 32 then Err(BadPubkey(|ids[user]|))
    else Ok(Row(user, ids[user], expires, StoreEpoch(epoch), room))
  }

  function Validate(t: Table, h: Hash, now: int): Result<Option<Info>, DbError> {
    if h !in t || t[h].expires <= now then Ok(None)
    else if |t[h].pubkey| != 32 then Err(BadPubkey(|t[h].pubkey|))
    else Ok(Some(Info(t[h].expires, t[h].userId, t[h].pubkey, LoadEpoch(t[h].epoch), t[h].room)))
  }

  /** Whether the renewing call, reading the clock a second time, decides to renew. */
  predicate Renews(t: Table, h: Hash, ttl: int, now: int, later: int) {
    Validate(t, h, now).Ok? && Validate(t, h, now).value.Some? && t[h].expires - later < Half(ttl)
  }

  /** The UPDATE misses a row that ran out between the two readings. */
  function Renewed(t: Table, h: Hash, ttl: int, now: int, later: int): Table {
    if Renews(t, h, ttl, now, later) && t[h].expires > later then t[h := t[h].(expires := later + ttl)] else t
  }

  /** The new expiry is returned whether or not the UPDATE matched. */
  function RenewedInfo(t: Table, h: Hash, ttl: int, now: int, later: int): Result<Option<Info>, DbError> {
    if Renews(t, h, ttl, now, later) then Ok(Some(Validate(t, h, now).value.value.(expires := later + ttl)))
    else Validate(t, h, now)
  }

  function Unexpired(t: Table, now: int): Table {
    map h | h in t && t[h].expires > now :: t[h]
  }

  class Db {
    const identities: Identities
    var bearers: Table

    constructor (identities: Identities)
      ensures this.identities == identities && bearers == map[]
    {
      this.identities := identities;
      bearers := map[];
    }

    method InsertBearer(user: UserId, h: Hash, expires: int, epoch: u64, room: Option<RoomId>)
      returns (r: Result<(), DbError>)
      modifies this
      ensures NewRow(identities, user, expires, epoch, room).Err? ==>
                r == Err(NewRow(identities, user, expires, epoch, room).error) && bearers == old(bearers)
      ensures NewRow(identities, user, expires, epoch, room).Ok? && h in old(bearers) ==>
                r == Err(HashTaken) && bearers == old(bearers)
      ensures NewRow(identities, user, expires, epoch, room).Ok? && h !in old(bearers) ==>
                r == Ok(()) && bearers == old(bearers)[h := NewRow(identities, user, expires, epoch, room).value]
    {
      if user !in identities {
        return Err(RowNotFound);
      }
      var pubkey := identities[user];
      if |pubkey| != 32 {
        return Err(BadPubkey(|pubkey|));
      }
      if h in bearers {
        return Err(HashTaken);
      }
      bearers := bearers[h := Row(user, pubkey, expires, StoreEpoch(epoch), room)];
      return Ok(());
    }

    method ValidateBearer(h: Hash, now: int) returns (r: Result<Option<Info>, DbError>)
      ensures r == Validate(bearers, h, now)
    {
      if h in bearers && bearers[h].expires > now {
        var row := bearers[h];
        if |row.pubkey| != 32 {
          return Err(BadPubkey(|row.pubkey|));
        }
        return Ok(Some(Info(row.expires, row.userId, row.pubkey, LoadEpoch(row.epoch), row.room)));
      }
      return Ok(None);
    }

    method ValidateBearerRenewing(h: Hash, ttl: int, now: int, later: int) returns (r: Result<Option<Info>, DbError>)
      modifies this
      ensures r == RenewedInfo(old(bearers), h, ttl, now, later)
      ensures bearers == Renewed(old(bearers), h, ttl, now, later)
    {
      r := ValidateBearer(h, now);
      if r.Err? || r.value.None? {
        return;
      }
      var info := r.value.value;
      if info.expires - later < Half(ttl) {
        var newExpiry := later + ttl;
        if h in bearers && bearers[h].expires > later {
          bearers := bearers[h := bearers[h].(expires := newExpiry)];
        }
        info := info.(expires := newExpiry);
      }
      return Ok(Some(info));
    }

    method RevokeBearer(h: Hash)
      modifies this
      ensures bearers == old(bearers) - {h}
    {
      bearers := bearers - {h};
    }

    method PurgeExpiredBearers(now: int) returns (purged: nat)
      modifies this
      ensures bearers == Unexpired(old(bearers), now)
      ensures purged == |old(bearers)| - |bearers|
    {
      var kept := map h | h in bearers && bearers[h].expires > now :: bearers[h];
      KeptIsSmaller(bearers, kept);
      purged := |bearers| - |kept|;
      bearers := kept;
    }
  }

  lemma KeptIsSmaller(t: Table, kept: Table)
    requires kept.Keys <= t.Keys
    ensures |kept| <= |t|
  {
    KeysSmaller(kept.Keys, t.Keys);
  }

  lemma {:induction false} KeysSmaller(a: set<Hash>, b: set<Hash>)
    requires a <= b
    ensures |a| <= |b|
  {
    if a != {} {
      var x :| x in a;
      KeysSmaller(a - {x}, b - {x});
    }
  }

  /** What is read back is what was inserted, the epoch included. */
  lemma InsertThenValidate(t: Table, ids: Identities, h: Hash, user: UserId, expires: int, epoch: u64, room: Option<RoomId>, now: int)
    requires NewRow(ids, user, expires, epoch, room).Ok? && expires > now
    ensures Validate(t[h := NewRow(ids, user, expires, epoch, room).value], h, now)
            == Ok(Some(Info(expires, user, ids[user], epoch, room)))
  {}
}
