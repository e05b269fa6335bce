/** A signed manifest on its whole way: split by the host, pushed piece by piece,
    assembled and verified by a viewer (shared/protocol/src/manifest_parts.rs and
    shared/manifest/src/signing.rs together). */
module SignedDelivery {
  import opened Wrappers
  import opened Words
  import opened ManifestParts
  import opened AssemblyTable
  import opened AssemblyRuns
  import opened AssemblySafety
  import opened AssemblyDelivery
  import Canonical
  import ManifestModel
  import CanonicalBytes
  import Signing
  import Base64

  /** The pieces pushed in order, each at its time, with budget room. */
  function Pushes(room: Uuid, parts: seq<Part>, times: seq<int>): (ops: seq<Op>)
    requires |times| == |parts|
    ensures |ops| == |parts| && forall i :: 0 <= i < |ops| ==> ops[i] == PushOp(room, parts[i], times[i], true)
  {
    seq(|parts|, i requires 0 <= i < |parts| => PushOp(room, parts[i], times[i], true))
  }

  /** Consecutive pushes are less than the lifetime apart. */
  predicate Steady(times: seq<int>, ttl: nat) {
    ttl > 0 && forall i :: 0 < i < |times| ==> times[i] - times[i - 1] < ttl
  }

  /** Such pushes are undisturbed: what `Delivery` asks for does occur. */
  lemma {:induction false} PlainUndisturbed<M>(cfg: Config<M>, es: seq<Assembly>, room: Uuid, parts: seq<Part>,
                                               pieces: seq<Bytes>, bytes: Bytes, times: seq<int>, k: nat, e: Assembly)
    requires cfg.maxConcurrent > 0 && Inv(cfg.maxConcurrent, es)
    requires Carries(cfg.codec, parts, pieces, bytes) && |times| == |parts| && Steady(times, cfg.ttl)
    requires k < |parts|
    requires k == 0 ==> !InTable(es, room, parts[0].assemblyId)
    requires k > 0 ==> e in es && Holding(e, room, parts, pieces, k) && e.lastActivity == times[k - 1]
    ensures Undisturbed(cfg, es, Pushes(room, parts, times)[k..], room, parts, k)
    decreases |parts| - k
  {
    hide Push, PushFront, Begin, MakeRoom, Expire, Inv, Partitioned, EntryOk, ValidateHeader, Base64.FromBase64, Concat, Expected,
         Holding;
    var ops := Pushes(room, parts, times);
    var op := ops[k];
    assert ops[k..][0] == op && ops[k..][1..] == ops[k + 1..];
    assert op.part == parts[k] && Ours(op, room, parts) by {
      PieceId(cfg.codec, parts, pieces, bytes, k);
    }
    var e' := e;
    if k == 0 {
      FirstPiece(cfg.codec, parts, pieces, bytes);
      FirstFront(cfg.maxConcurrent, cfg.ttl, es, room, op.part, pieces[0], op.now);
      var made := MakeRoom(Expire(Table(es, []), cfg.ttl, op.now), room, op.part.kind, cfg.maxConcurrent);
      PushFresh(cfg, es, room, op.part, op.now, made, pieces[0]);
      e' := BeginFirst(cfg.codec, made, room, parts, pieces, bytes, op.now);
    } else {
      HoldingCount(e, room, parts, pieces, k);
      assert Age(e, op.now) < cfg.ttl;
      e' := OursInOrder(cfg, es, op, room, parts, pieces, bytes, e);
    }
    if k + 1 < |parts| {
      PlainUndisturbed(cfg, Apply(cfg, es, op), room, parts, pieces, bytes, times, k + 1, e');
    }
  }

  lemma PieceId<M>(codec: Codec<M>, parts: seq<Part>, pieces: seq<Bytes>, bytes: Bytes, k: nat)
    requires Carries(codec, parts, pieces, bytes) && k < |parts|
    ensures parts[k].assemblyId == parts[0].assemblyId
  {}

  /** A split manifest pushed in order into any table without that assembly gives
      back exactly the bytes that were split, at the last piece and not before. */
  lemma PlainRoundTrip<M>(cfg: Config<M>, es: seq<Assembly>, room: Uuid, bytes: Bytes, kind: Kind,
                          version: i64, publishedAtMs: i64, id: Uuid, frameCap: nat, times: seq<int>)
    requires cfg.maxConcurrent > 0 && Inv(cfg.maxConcurrent, es) && HexDigests(cfg.codec)
    requires PartSizeForFrameCap(frameCap).Ok? && 0 < |bytes| <= MAX_ASSEMBLED_BYTES
    requires kind == Publish ==> version == 0 && publishedAtMs == 0
    requires !InTable(es, room, id)
    requires Steady(times, cfg.ttl) && |times| == CeilDiv(|bytes|, PartSizeForFrameCap(frameCap).value)
    ensures var split := SplitManifestBytes(cfg.codec.sha256Hex, bytes, kind, version, publishedAtMs, id, PartSizeForFrameCap(frameCap).value);
            && split.Ok? && |split.value| == |times| > 0
            && Answers(cfg, es, Pushes(room, split.value, times), room, split.value,
                 Decoded(cfg.codec, room, kind, version, publishedAtMs, bytes))
  {
    hide Undisturbed, Answers, Push, ValidateHeader, PartSizeForFrameCap, SplitManifestBytes, Inv, Carries, Steady;
    SplitCarries(cfg.codec, bytes, kind, version, publishedAtMs, id, frameCap);
    var size := PartSizeForFrameCap(frameCap).value;
    SplitPieces(cfg.codec.sha256Hex, bytes, kind, version, publishedAtMs, id, size);
    var parts := SplitManifestBytes(cfg.codec.sha256Hex, bytes, kind, version, publishedAtMs, id, size).value;
    assert Pushes(room, parts, times)[0..] == Pushes(room, parts, times);
    PlainUndisturbed(cfg, es, room, parts, Chunks(bytes, size), bytes, times, 0, NewAssembly(room, parts[0], 0));
    RoundTrip(cfg, es, Pushes(room, parts, times), room, bytes, kind, version, publishedAtMs, id, frameCap);
  }

  /** A viewer that gets the pieces of a signed manifest assembles that manifest and
      accepts its signature. `bytes` is any text that decodes to it. */
  lemma SignedManifestArrives(cfg: Config<ManifestModel.MediaManifest>, es: seq<Assembly>, room: Uuid, bytes: Bytes, kind: Kind,
                              version: i64, publishedAtMs: i64, id: Uuid, frameCap: nat, times: seq<int>,
                              scheme: Signing.Scheme, nfc: Canonical.Nfc, seed: Signing.Key, m: ManifestModel.MediaManifest)
    requires cfg.maxConcurrent > 0 && Inv(cfg.maxConcurrent, es) && HexDigests(cfg.codec)
    requires PartSizeForFrameCap(frameCap).Ok? && 0 < |bytes| <= MAX_ASSEMBLED_BYTES
    requires kind == Publish ==> version == 0 && publishedAtMs == 0
    requires !InTable(es, room, id)
    requires Steady(times, cfg.ttl) && |times| == CeilDiv(|bytes|, PartSizeForFrameCap(frameCap).value)
    requires CanonicalBytes.Serialize(nfc, m).Ok? && Signing.Complete(scheme, seed, CanonicalBytes.Serialize(nfc, m).value)
    requires Signing.SignManifest(scheme, nfc, seed, m).Ok?
    requires cfg.codec.parse(bytes) == Ok(Signing.SignManifest(scheme, nfc, seed, m).value)
    ensures var signed := Signing.SignManifest(scheme, nfc, seed, m).value;
            var split := SplitManifestBytes(cfg.codec.sha256Hex, bytes, kind, version, publishedAtMs, id, PartSizeForFrameCap(frameCap).value);
            && split.Ok? && |split.value| == |times| > 0
            && Answers(cfg, es, Pushes(room, split.value, times), room, split.value,
                 Ok(Some(Assembled(room, kind, version, publishedAtMs, signed))))
            && Signing.VerifyManifest(scheme, nfc, signed) == Ok(())
  {
    hide Answers, PartSizeForFrameCap, SplitManifestBytes, Inv, Steady, Signing.SignManifest, Signing.VerifyManifest,
         Signing.Complete, CanonicalBytes.Serialize;
    PlainRoundTrip(cfg, es, room, bytes, kind, version, publishedAtMs, id, frameCap, times);
    Signing.SignVerifies(scheme, nfc, seed, m);
  }

  /** Whatever hostile traffic came before: if a push completes a manifest that
      carries the host's signature block of `m` and verifies, then it is `m` up to
      normalisation and the block, and it was decoded from pieces of one assembly
      pushed in order. */
  lemma DeliveredIsHosts(cfg: Config<ManifestModel.MediaManifest>, ops: seq<Op>, last: Op,
                         done: Assembled<ManifestModel.MediaManifest>,
                         scheme: Signing.Scheme, nfc: Canonical.Nfc, seed: Signing.Key, m: ManifestModel.MediaManifest)
      returns (e: Assembly, ks: seq<nat>)
    requires cfg.maxConcurrent > 0 && last.PushOp?
    requires Push(cfg, Run(cfg, ops), last.room, last.part, last.now, last.granted).1 == Ok(Some(done))
    requires CanonicalBytes.Serialize(nfc, m).Ok? && Signing.Ideal(scheme, seed, CanonicalBytes.Serialize(nfc, m).value)
    requires Signing.SignManifest(scheme, nfc, seed, m).Ok?
    requires done.manifest.hostSignature == Signing.SignManifest(scheme, nfc, seed, m).value.hostSignature
    ensures Signing.VerifyManifest(scheme, nfc, done.manifest).Ok?
            <==> ManifestModel.Normalize(nfc, done.manifest) == ManifestModel.Normalize(nfc, m)
    ensures MadeBy(ops + [last], e, ks) && |ks| == e.total && Joined(ops + [last], ks) == e.buf
    ensures cfg.codec.parse(Joined(ops + [last], ks)) == Ok(done.manifest)
  {
    hide Push, Run, Signing.VerifyManifest, Signing.SignManifest, Signing.Ideal, CanonicalBytes.Serialize, ManifestModel.Normalize,
         MadeBy, Joined;
    e, ks := ManifestIsWhatWasSent(cfg, ops, last, done);
    Signing.CarriedBlock(scheme, nfc, seed, m, done.manifest);
  }
}
