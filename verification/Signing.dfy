/** Signing and verifying manifests (shared/manifest/src/signing.rs:38-164) over
    any signature scheme with 32-byte keys and 64-byte signatures. */
module Signing {
  import opened Wrappers
  import opened Words
  import opened Canonical
  import opened ManifestModel
  import opened CanonicalBytes
  import opened CanonicalIdentity
  import Base64

  type Key = b: Bytes | |b| == 32 witness seq(32, _ => 0)

  type Signature = b: Bytes | |b| == 64 witness seq(64, _ => 0)

  /** `isPoint` is `VerifyingKey::from_bytes`, `accepts` is `verify_strict`. */
  datatype Scheme = Scheme(
    sign: (Key, Bytes) -> Signature,
    publicKey: Key -> Key,
    isPoint: Key -> bool,
    accepts: (Key, Bytes, Signature) -> bool)

  datatype CryptoError = InvalidKey | InvalidSignature

  datatype KeyReason = KeyBase64 | KeyLength(keyBytes: nat) | RejectedByVerifier

  datatype EncodingReason = SignatureBase64 | SignatureLength(signatureBytes: nat)

  datatype VerifyError =
    | MissingSignature
    | UnsupportedAlgorithm(name: string)
    | InvalidPublicKey(keyReason: KeyReason)
    | InvalidSignatureEncoding(encodingReason: EncodingReason)
    | SignatureMismatch
    | CanonicalizationFailed(cause: CanonicalError)

  const ALGORITHM_ED25519: string := "ed25519"

  predicate AllZero(pk: Key) {
    forall i :: 0 <= i < |pk| ==> pk[i] == 0
  }

  /** shared/crypto/src/ed25519.rs:70-89. */
  function Verify(scheme: Scheme, pk: Key, message: Bytes, sig: Signature): Result<(), CryptoError> {
    if AllZero(pk) || !scheme.isPoint(pk) then Err(InvalidKey)
    else if !scheme.accepts(pk, message, sig) then Err(InvalidSignature)
    else Ok(())
  }

  function SignManifest(scheme: Scheme, nfc: Nfc, seed: Key, m: MediaManifest): Result<MediaManifest, CanonicalError> {
    match Serialize(nfc, m)
    case Err(e) => Err(e)
    case Ok(bytes) =>
      Ok(m.(hostSignature := Some(HostSignature(
        Base64.Encode(scheme.publicKey(seed)), ALGORITHM_ED25519, Base64.Encode(scheme.sign(seed, bytes))))))
  }

  function DecodePublicKey(s: string): Result<Key, VerifyError> {
    match Base64.FromBase64(s)
    case None => Err(InvalidPublicKey(KeyBase64))
    case Some(b) => if |b| == 32 then Ok(b) else Err(InvalidPublicKey(KeyLength(|b|)))
  }

  function DecodeSignature(s: string): Result<Signature, VerifyError> {
    match Base64.FromBase64(s)
    case None => Err(InvalidSignatureEncoding(SignatureBase64))
    case Some(b) => if |b| == 64 then Ok(b) else Err(InvalidSignatureEncoding(SignatureLength(|b|)))
  }

  function VerifyManifest(scheme: Scheme, nfc: Nfc, m: MediaManifest): Result<(), VerifyError> {
    match m.hostSignature
    case None => Err(MissingSignature)
    case Some(h) =>
      if h.algorithm != ALGORITHM_ED25519 then Err(UnsupportedAlgorithm(h.algorithm))
      else match DecodePublicKey(h.publicKey)
        case Err(e) => Err(e)
        case Ok(pk) =>
          match DecodeSignature(h.value)
          case Err(e) => Err(e)
          case Ok(sig) =>
            match Serialize(nfc, m)
            case Err(e) => Err(CanonicalizationFailed(e))
            case Ok(bytes) =>
              match Verify(scheme, pk, bytes, sig)
              case Err(InvalidKey) => Err(InvalidPublicKey(RejectedByVerifier))
              case Err(InvalidSignature) => Err(SignatureMismatch)
              case Ok(_) => Ok(())
  }

  lemma PublicKeyDecodes(pk: Key, s: string)
    ensures DecodePublicKey(s) == Ok(pk) <==> s == Base64.Encode(pk)
  {
    Base64.Bijection(pk, s);
  }

  lemma SignatureDecodes(sig: Signature, s: string)
    ensures DecodeSignature(s) == Ok(sig) <==> s == Base64.Encode(sig)
  {
    Base64.Bijection(sig, s);
  }

  /** A manifest verifies exactly if its block spells an acceptable signature of its
      canonical bytes; a key and a signature have one spelling each. */
  lemma VerifiesExactlyWhen(scheme: Scheme, nfc: Nfc, m: MediaManifest)
    ensures Serialize(nfc, m).Ok?
    ensures VerifyManifest(scheme, nfc, m).Ok? <==>
              exists pk: Key, sig: Signature ::
                && m.hostSignature == Some(HostSignature(Base64.Encode(pk), "ed25519", Base64.Encode(sig)))
                && (exists i :: 0 <= i < 32 && pk[i] != 0) && scheme.isPoint(pk)
                && scheme.accepts(pk, Serialize(nfc, m).value, sig)
  {
    hide Serialize, Base64.Encode, Base64.FromBase64;
    RecoverSerialize(nfc, m);
    if m.hostSignature.Some? {
      var h := m.hostSignature.value;
      forall pk: Key, sig: Signature
        ensures DecodePublicKey(h.publicKey) == Ok(pk) <==> h.publicKey == Base64.Encode(pk)
        ensures DecodeSignature(h.value) == Ok(sig) <==> h.value == Base64.Encode(sig)
      {
        PublicKeyDecodes(pk, h.publicKey);
        SignatureDecodes(sig, h.value);
      }
    }
  }

  /** Which stage refuses, when the ones before it did not: the block, its algorithm, its
      key text, its signature text. */
  lemma StagesExactly(scheme: Scheme, nfc: Nfc, m: MediaManifest, b: Bytes, c: Bytes)
    ensures VerifyManifest(scheme, nfc, m) == Err(MissingSignature) <==> m.hostSignature.None?
    ensures m.hostSignature.Some? ==>
              var h, r := m.hostSignature.value, VerifyManifest(scheme, nfc, m);
              && (r == Err(UnsupportedAlgorithm(h.algorithm)) <==> h.algorithm != "ed25519")
              && (h.algorithm == "ed25519" ==>
                    && (r == Err(InvalidPublicKey(KeyBase64)) <==> Base64.FromBase64(h.publicKey) == None)
                    && (Base64.FromBase64(h.publicKey) == Some(b) && |b| != 32 ==> r == Err(InvalidPublicKey(KeyLength(|b|))))
                    && (Base64.FromBase64(h.publicKey) == Some(b) && |b| == 32 ==>
                          && (r == Err(InvalidSignatureEncoding(SignatureBase64)) <==> Base64.FromBase64(h.value) == None)
                          && (Base64.FromBase64(h.value) == Some(c) && |c| != 64 ==>
                                r == Err(InvalidSignatureEncoding(SignatureLength(|c|))))))
  {
    hide Serialize, Base64.Encode, Base64.FromBase64, Verify;
    RecoverSerialize(nfc, m);
  }

  /** The last two stages: a key that is all zero or not a point is blamed on the key, a
      signature that is not accepted for the canonical bytes on the signature. */
  lemma LastStages(scheme: Scheme, nfc: Nfc, m: MediaManifest, pk: Key, sig: Signature)
    requires m.hostSignature == Some(HostSignature(Base64.Encode(pk), "ed25519", Base64.Encode(sig)))
    ensures Serialize(nfc, m).Ok?
    ensures var r, sound := VerifyManifest(scheme, nfc, m), (exists i :: 0 <= i < 32 && pk[i] != 0) && scheme.isPoint(pk);
            && (r == Err(InvalidPublicKey(RejectedByVerifier)) <==> !sound)
            && (r == Err(SignatureMismatch) <==> sound && !scheme.accepts(pk, Serialize(nfc, m).value, sig))
  {
    hide Serialize, Base64.Encode, Base64.FromBase64;
    RecoverSerialize(nfc, m);
    PublicKeyDecodes(pk, Base64.Encode(pk));
    SignatureDecodes(sig, Base64.Encode(sig));
  }

  /** Completeness of the scheme (section 5.1.7 of RFC 8032) for one key and message. */
  predicate Complete(scheme: Scheme, seed: Key, message: Bytes) {
    var pk := scheme.publicKey(seed);
    !AllZero(pk) && scheme.isPoint(pk) && scheme.accepts(pk, message, scheme.sign(seed, message))
  }

  /** The ideal scheme: a signature is accepted for the message it was made for and
      for no other one. */
  ghost predicate Ideal(scheme: Scheme, seed: Key, message: Bytes) {
    && Complete(scheme, seed, message)
    && forall other :: scheme.accepts(scheme.publicKey(seed), other, scheme.sign(seed, message)) ==> other == message
  }

  lemma SignedShape(scheme: Scheme, nfc: Nfc, seed: Key, m: MediaManifest)
    ensures Serialize(nfc, m).Ok? && SignManifest(scheme, nfc, seed, m).Ok?
    ensures var s := SignManifest(scheme, nfc, seed, m).value;
            && WithoutBlock(s) == WithoutBlock(m) && Normalize(nfc, s) == Normalize(nfc, m)
            && Serialize(nfc, s) == Serialize(nfc, m)
  {
    hide Serialize;
    RecoverSerialize(nfc, m);
    var s := SignManifest(scheme, nfc, seed, m).value;
    assert Normalize(nfc, s) == Normalize(nfc, m);
    SameBytes(nfc, s, m);
  }

  /** What is signed verifies. */
  lemma SignVerifies(scheme: Scheme, nfc: Nfc, seed: Key, m: MediaManifest)
    requires Serialize(nfc, m).Ok? && Complete(scheme, seed, Serialize(nfc, m).value)
    ensures SignManifest(scheme, nfc, seed, m).Ok?
    ensures VerifyManifest(scheme, nfc, SignManifest(scheme, nfc, seed, m).value) == Ok(())
  {
    hide Serialize, Base64.Encode, Base64.FromBase64, Normalize;
    SignedShape(scheme, nfc, seed, m);
    PublicKeyDecodes(scheme.publicKey(seed), Base64.Encode(scheme.publicKey(seed)));
    var sig := scheme.sign(seed, Serialize(nfc, m).value);
    SignatureDecodes(sig, Base64.Encode(sig));
  }

  /** Signing again changes nothing; signing with another key replaces the block. */
  lemma SignAgain(scheme: Scheme, nfc: Nfc, first: Key, second: Key, m: MediaManifest)
    ensures SignManifest(scheme, nfc, first, m).Ok?
    ensures SignManifest(scheme, nfc, second, SignManifest(scheme, nfc, first, m).value)
            == SignManifest(scheme, nfc, second, m)
  {
    hide Serialize, Base64.Encode, Normalize;
    SignedShape(scheme, nfc, first, m);
  }

  /** A manifest that carries the block of a signed manifest verifies exactly if it
      equals that manifest up to normalisation and the block; otherwise the error is
      a signature mismatch. */
  lemma CarriedBlock(scheme: Scheme, nfc: Nfc, seed: Key, m: MediaManifest, x: MediaManifest)
    requires Serialize(nfc, m).Ok? && Ideal(scheme, seed, Serialize(nfc, m).value)
    requires SignManifest(scheme, nfc, seed, m).Ok?
    requires x.hostSignature == SignManifest(scheme, nfc, seed, m).value.hostSignature
    ensures VerifyManifest(scheme, nfc, x) == if Normalize(nfc, x) == Normalize(nfc, m) then Ok(()) else Err(SignatureMismatch)
  {
    hide Serialize, Base64.Encode, Base64.FromBase64, Normalize;
    RecoverSerialize(nfc, x);
    SameBytes(nfc, x, m);
    var pk, sig := scheme.publicKey(seed), scheme.sign(seed, Serialize(nfc, m).value);
    PublicKeyDecodes(pk, Base64.Encode(pk));
    SignatureDecodes(sig, Base64.Encode(sig));
  }
}
