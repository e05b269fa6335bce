/** Messages, limits and the pure half of the chunked manifest transport
    (shared/protocol/src/manifest_parts.rs): header validation, the piece size
    for a frame cap, and splitting. */
module ManifestParts {
  import opened Wrappers
  import opened Words
  import Base64

  const MAX_PART_BYTES: nat := 512 * 1024
  const MAX_ASSEMBLED_BYTES: nat := 32 * 1024 * 1024
  const MAX_PARTS: nat := 1024
  const FRAME_OVERHEAD_BYTES: nat := 4096

  type Uuid = nat

  datatype Kind = Publish | Published | Response

  datatype Part = Part(
    assemblyId: Uuid, kind: Kind, index: u32, total: u32, totalBytes: u32, digest: string,
    version: i64, publishedAtMs: i64, data: string)

  datatype HeaderFault = EmptyOrBadSize | CountOutOfRange | IndexOutOfRange | CountDoesNotFit | BadDigest | VersionedPublish | HeaderChanged

  datatype PartError =
    | BadHeader(why: HeaderFault)
    | TooLarge(bytes: nat, limit: nat)
    | OutOfOrder(expected: nat, got: nat)
    | Conflict(index: nat)
    | BadPiece(index: nat)
    | LengthMismatch
    | DigestMismatch
    | BadManifest(message: string)
    | BudgetExhausted
    | FrameCapTooSmall(cap: nat)

  /** The foreign code a transport uses: SHA-256 in lowercase hex and the JSON
      decoder of a manifest of type `M`. */
  datatype Codec<!M> = Codec(sha256Hex: Bytes -> string, parse: Bytes -> Result<M, string>)

  predicate IsDigest(s: string) {
    |s| == 64 && forall i :: 0 <= i < 64 ==> '0' <= s[i] <= '9' || 'a' <= s[i] <= 'f'
  }

  ghost predicate HexDigests<M>(codec: Codec<M>) {
    forall b: Bytes :: IsDigest(codec.sha256Hex(b))
  }

  function Min(a: nat, b: nat): nat { if a < b then a else b }

  function PartSizeForFrameCap(frameCap: nat): Result<nat, PartError> {
    var room := if frameCap > FRAME_OVERHEAD_BYTES then frameCap - FRAME_OVERHEAD_BYTES else 0;
    var size := Min(room / 4 * 3, MAX_PART_BYTES);
    if size < CeilDiv(MAX_ASSEMBLED_BYTES, MAX_PARTS) then Err(FrameCapTooSmall(frameCap)) else Ok(size)
  }

  function ValidateHeader(p: Part): (r: Result<(), PartError>)
    ensures r.Ok? ==> p.index < p.total <= MAX_PARTS && p.total <= p.totalBytes <= MAX_ASSEMBLED_BYTES
    ensures r.Ok? ==> p.totalBytes <= p.total * MAX_PART_BYTES && IsDigest(p.digest)
  {
    if p.total == 0 || p.total > MAX_PARTS then Err(BadHeader(CountOutOfRange))
    else if p.index >= p.total then Err(BadHeader(IndexOutOfRange))
    else if p.totalBytes == 0 || p.totalBytes > MAX_ASSEMBLED_BYTES then Err(TooLarge(p.totalBytes, MAX_ASSEMBLED_BYTES))
    else if p.totalBytes > p.total * MAX_PART_BYTES || p.total > p.totalBytes then Err(BadHeader(CountDoesNotFit))
    else if !IsDigest(p.digest) then Err(BadHeader(BadDigest))
    else if p.kind == Publish && (p.version != 0 || p.publishedAtMs != 0) then Err(BadHeader(VersionedPublish))
    else Ok(())
  }

  /** `bytes.chunks(size)` for a non-empty slice. */
  function Chunks(bytes: Bytes, size: nat): (pieces: seq<Bytes>)
    requires size > 0 && bytes != []
  {
    if |bytes| <= size then [bytes] else [bytes[..size]] + Chunks(bytes[size..], size)
  }

  function Concat(pieces: seq<Bytes>): Bytes {
    if pieces == [] then [] else Concat(pieces[..|pieces| - 1]) + pieces[|pieces| - 1]
  }

  function SplitManifestBytes(sha256Hex: Bytes -> string, bytes: Bytes, kind: Kind, version: i64, publishedAtMs: i64,
                              id: Uuid, partSize: nat): Result<seq<Part>, PartError> {
    if bytes == [] || partSize == 0 || partSize > MAX_PART_BYTES then Err(BadHeader(EmptyOrBadSize))
    else if |bytes| > MAX_ASSEMBLED_BYTES then Err(TooLarge(|bytes|, MAX_ASSEMBLED_BYTES))
    else if CeilDiv(|bytes|, partSize) > MAX_PARTS then Err(TooLarge(|bytes|, partSize * MAX_PARTS))
    else
      ChunksCount(bytes, partSize);
      var pieces := Chunks(bytes, partSize);
      Ok(seq(|pieces|, i requires 0 <= i < |pieces| =>
        Part(id, kind, i, |pieces|, |bytes|, sha256Hex(bytes), version, publishedAtMs, Base64.Encode(pieces[i]))))
  }

  lemma CeilDivStep(n: nat, d: nat)
    requires 0 < d <= n
    ensures CeilDiv(n, d) == 1 + CeilDiv(n - d, d)
  {
    hide CeilDiv;
    var q := CeilDiv(n - d, d);
    assert d * (1 + q) == d + d * q;
    CeilDivUnique(n, d, 1 + q);
  }

  lemma {:induction false} ChunksCount(bytes: Bytes, size: nat)
    requires size > 0 && bytes != []
    ensures |Chunks(bytes, size)| == CeilDiv(|bytes|, size)
  {
    if |bytes| <= size {
      CeilDivUnique(|bytes|, size, 1);
    } else {
      ChunksCount(bytes[size..], size);
      CeilDivStep(|bytes|, size);
    }
  }

  lemma {:induction false} ConcatCons(first: Bytes, rest: seq<Bytes>)
    ensures Concat([first] + rest) == first + Concat(rest)
  {
    if rest == [] {
      assert ([first] + rest)[..0] == [];
    } else {
      var all := [first] + rest;
      ConcatCons(first, rest[..|rest| - 1]);
      assert all[..|all| - 1] == [first] + rest[..|rest| - 1];
    }
  }

  /** Chunking loses nothing: non-empty pieces that concatenate to the input, all but the
      last of the given size. */
  lemma {:induction false} ChunksRejoin(bytes: Bytes, size: nat)
    requires size > 0 && bytes != []
    ensures Concat(Chunks(bytes, size)) == bytes
    ensures forall i :: 0 <= i < |Chunks(bytes, size)| ==> 0 < |Chunks(bytes, size)[i]| <= size
    ensures forall i :: 0 <= i < |Chunks(bytes, size)| - 1 ==> |Chunks(bytes, size)[i]| == size
  {
    if |bytes| <= size {
      assert [bytes][..0] == [];
    } else {
      ChunksRejoin(bytes[size..], size);
      ConcatCons(bytes[..size], Chunks(bytes[size..], size));
      assert bytes == bytes[..size] + bytes[size..];
    }
  }

  /** A piece size granted for a frame cap: the base64 of any piece of that size
      plus the envelope headroom fits the cap, every manifest up to the declared
      maximum then needs at most `MAX_PARTS` pieces, and a refusal means that
      the largest manifest would not fit. */
  lemma PartSizeFits(frameCap: nat, piece: Bytes)
    ensures PartSizeForFrameCap(frameCap).Ok? <==> frameCap >= FRAME_OVERHEAD_BYTES + 43692
    ensures var r := PartSizeForFrameCap(frameCap);
            r.Ok? ==>
              && 0 < r.value <= MAX_PART_BYTES
              && r.value * MAX_PARTS >= MAX_ASSEMBLED_BYTES
              && (|piece| <= r.value ==> |Base64.Encode(piece)| + FRAME_OVERHEAD_BYTES <= frameCap)
  {
    hide Base64.Encode;
    Base64.EncodedLength(piece);
    assert CeilDiv(MAX_ASSEMBLED_BYTES, MAX_PARTS) == 32768;
  }

  /** The granted size is the largest legal one that fits; a refusal names the cap. */
  lemma PartSizeLargest(frameCap: nat, n: nat)
    ensures var r := PartSizeForFrameCap(frameCap);
            && (r.Err? ==> r == Err(FrameCapTooSmall(frameCap)))
            && (r.Ok? ==> (n <= r.value <==> n <= 512 * 1024 && CeilDiv(n, 3) * 4 + 4096 <= frameCap))
  {
    assert CeilDiv(MAX_ASSEMBLED_BYTES, MAX_PARTS) == 32768;
  }

  /** What a refused split is blamed on. */
  lemma SplitRefused(sha256Hex: Bytes -> string, bytes: Bytes, kind: Kind, version: i64, publishedAtMs: i64,
                     id: Uuid, partSize: nat)
    ensures var r := SplitManifestBytes(sha256Hex, bytes, kind, version, publishedAtMs, id, partSize);
            var fits := bytes != [] && 0 < partSize <= 512 * 1024;
            && (r == Err(BadHeader(EmptyOrBadSize)) <==> !fits)
            && (r == Err(TooLarge(|bytes|, 32 * 1024 * 1024)) <==> fits && |bytes| > 32 * 1024 * 1024)
            && (fits && partSize * 1024 < |bytes| <= 32 * 1024 * 1024 ==> r == Err(TooLarge(|bytes|, partSize * 1024)))
  {
    hide Chunks, CeilDiv, Base64.Encode;
    if partSize > 0 {
      CountFits(|bytes|, partSize);
    }
  }

  /** Exactly when a split succeeds, and what its pieces are. */
  lemma SplitPieces(sha256Hex: Bytes -> string, bytes: Bytes, kind: Kind, version: i64, publishedAtMs: i64,
                    id: Uuid, partSize: nat)
    ensures var r := SplitManifestBytes(sha256Hex, bytes, kind, version, publishedAtMs, id, partSize);
            && (r.Ok? <==> 0 < |bytes| <= MAX_ASSEMBLED_BYTES && 0 < partSize <= MAX_PART_BYTES && |bytes| <= partSize * MAX_PARTS)
            && (r.Ok? ==>
                  && |r.value| == CeilDiv(|bytes|, partSize)
                  && forall i :: 0 <= i < |r.value| ==>
                       && var p := r.value[i];
                       && p.index == i && p.total == |r.value| && p.totalBytes == |bytes|
                       && p == r.value[0].(index := i, data := p.data)
                       && Base64.FromBase64(p.data) == Some(Chunks(bytes, partSize)[i])
                       && (IsDigest(sha256Hex(bytes)) && (kind == Publish ==> version == 0 && publishedAtMs == 0) ==> ValidateHeader(p).Ok?))
  {
    hide Base64.Encode, Base64.Decode, CeilDiv, Chunks;
    if bytes != [] && 0 < partSize <= MAX_PART_BYTES {
      CountFits(|bytes|, partSize);
      var r := SplitManifestBytes(sha256Hex, bytes, kind, version, publishedAtMs, id, partSize);
      if r.Ok? {
        ChunksCount(bytes, partSize);
        ChunksRejoin(bytes, partSize);
        HeaderFits(|bytes|, partSize, |r.value|);
        forall i | 0 <= i < |r.value|
          ensures Base64.FromBase64(r.value[i].data) == Some(Chunks(bytes, partSize)[i])
        {
          Base64.Bijection(Chunks(bytes, partSize)[i], r.value[i].data);
        }
      }
    }
  }

  lemma CountFits(n: nat, d: nat)
    requires d > 0
    ensures CeilDiv(n, d) > MAX_PARTS <==> n > d * MAX_PARTS
  {
    hide CeilDiv;
    var q := CeilDiv(n, d);
    if q <= MAX_PARTS {
      MulMonotone(d, q, MAX_PARTS);
    } else {
      MulMonotone(d, MAX_PARTS + 1, q);
    }
  }

  lemma HeaderFits(n: nat, d: nat, q: nat)
    requires 0 < n && 0 < d <= MAX_PART_BYTES && q == CeilDiv(n, d)
    ensures 0 < q <= n <= q * MAX_PART_BYTES
  {
    hide CeilDiv;
    MulMonotone(q, d, MAX_PART_BYTES);
    assert d * q == q * d;
    if q == 0 {
    } else if d == 1 {
    } else {
      MulMonotone(q - 1, 1, d);
      assert d * q == (q - 1) * d + d;
    }
  }

  /** The full promise of the sender: with a granted piece size every non-empty
      manifest up to 32 MiB splits, and every piece fits the frame. */
  lemma SplitForFrameCap(sha256Hex: Bytes -> string, bytes: Bytes, kind: Kind, version: i64, publishedAtMs: i64,
                         id: Uuid, frameCap: nat)
    requires PartSizeForFrameCap(frameCap).Ok?
    requires 0 < |bytes| <= MAX_ASSEMBLED_BYTES
    ensures var r := SplitManifestBytes(sha256Hex, bytes, kind, version, publishedAtMs, id, PartSizeForFrameCap(frameCap).value);
            r.Ok? && forall i :: 0 <= i < |r.value| ==> |r.value[i].data| + FRAME_OVERHEAD_BYTES <= frameCap
  {
    var size := PartSizeForFrameCap(frameCap).value;
    PartSizeFits(frameCap, []);
    SplitPieces(sha256Hex, bytes, kind, version, publishedAtMs, id, size);
    ChunksRejoin(bytes, size);
    var pieces := Chunks(bytes, size);
    forall i | 0 <= i < |pieces|
      ensures |Base64.Encode(pieces[i])| + FRAME_OVERHEAD_BYTES <= frameCap
    {
      PartSizeFits(frameCap, pieces[i]);
    }
  }
}
