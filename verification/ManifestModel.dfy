/** The manifest of shared/manifest/src/model.rs: what its derived `Serialize` feeds
    the collecting serializer, its normal form, and how a tree is read back. */
module ManifestModel {
  import opened Wrappers
  import opened Words
  import opened JsonTree
  import opened JsonText
  import opened Canonical
  import opened CollectedTree

  datatype Dimensions = Dimensions(width: u32, height: u32)

  datatype Codecs = Codecs(video: Option<string>, audio: Option<string>, container: Option<string>)

  datatype Source = Source(peerId: string, urlHint: Option<string>, priority: i32,
    chunkSize: u32, totalChunks: u32, chunkHashes: seq<string>)

  datatype MediaEntry = MediaEntry(id: string, filename: string, sha256: string, blake3: string,
    sizeBytes: u64, mime: string, durationMs: u64, dimensions: Option<Dimensions>,
    codecs: Option<Codecs>, sources: seq<Source>)

  datatype SubtitleEntry = SubtitleEntry(id: string, language: string, title: string, filename: string,
    sha256: string, sizeBytes: u64, codec: string, sources: seq<Source>)

  datatype HostSignature = HostSignature(publicKey: string, algorithm: string, value: string)

  datatype MediaManifest = MediaManifest(manifestVersion: u32, roomId: string, media: seq<MediaEntry>,
    subtitles: seq<SubtitleEntry>, createdAt: i64, hostSignature: Option<HostSignature>)

  // ----- what the derived serializers do -----

  /** `skip_serializing_if = "Option::is_none"`. */
  function Skippable(name: string, v: Option<Value>): seq<Member> {
    match v case None => [] case Some(w) => [Member(name, Present(w))]
  }

  function OptionText(s: Option<string>): Option<Value> {
    match s case None => None case Some(t) => Some(Text(t))
  }

  function Texts(ss: seq<string>): seq<Value> {
    seq(|ss|, i requires 0 <= i < |ss| => Text(ss[i]))
  }

  function DimensionsMembers(d: Dimensions): seq<Member> {
    [Member("width", Unsigned(d.width)), Member("height", Unsigned(d.height))]
  }

  function CodecsMembers(c: Codecs): seq<Member> {
    Skippable("video", OptionText(c.video)) + Skippable("audio", OptionText(c.audio))
    + Skippable("container", OptionText(c.container))
  }

  function SourceMembers(s: Source): seq<Member> {
    [Member("peer_id", Text(s.peerId)),
     Member("url_hint", match s.urlHint case None => Absent case Some(t) => Present(Text(t))),
     Member("priority", Signed(s.priority)),
     Member("chunk_size", Unsigned(s.chunkSize)),
     Member("total_chunks", Unsigned(s.totalChunks)),
     Member("chunk_hashes", Sequence(Texts(s.chunkHashes)))]
  }

  function Sources(ss: seq<Source>): seq<Value> {
    seq(|ss|, i requires 0 <= i < |ss| => Struct(SourceMembers(ss[i])))
  }

  function OptionDimensions(d: Option<Dimensions>): Option<Value> {
    match d case None => None case Some(x) => Some(Struct(DimensionsMembers(x)))
  }

  function OptionCodecs(c: Option<Codecs>): Option<Value> {
    match c case None => None case Some(x) => Some(Struct(CodecsMembers(x)))
  }

  function MediaMembers(e: MediaEntry): seq<Member> {
    [Member("id", Text(e.id)),
     Member("filename", Text(e.filename)),
     Member("sha256", Text(e.sha256)),
     Member("blake3", Text(e.blake3)),
     Member("size_bytes", Unsigned(e.sizeBytes)),
     Member("mime", Text(e.mime)),
     Member("duration_ms", Unsigned(e.durationMs))]
    + Skippable("dimensions", OptionDimensions(e.dimensions))
    + Skippable("codecs", OptionCodecs(e.codecs))
    + [Member("sources", Sequence(Sources(e.sources)))]
  }

  function Media(es: seq<MediaEntry>): seq<Value> {
    seq(|es|, i requires 0 <= i < |es| => Struct(MediaMembers(es[i])))
  }

  function SubtitleMembers(e: SubtitleEntry): seq<Member> {
    [Member("id", Text(e.id)),
     Member("language", Text(e.language)),
     Member("label", Text(e.title)),
     Member("filename", Text(e.filename)),
     Member("sha256", Text(e.sha256)),
     Member("size_bytes", Unsigned(e.sizeBytes)),
     Member("codec", Text(e.codec)),
     Member("sources", Sequence(Sources(e.sources)))]
  }

  function Subtitles(es: seq<SubtitleEntry>): seq<Value> {
    seq(|es|, i requires 0 <= i < |es| => Struct(SubtitleMembers(es[i])))
  }

  function SignatureValue(s: Option<HostSignature>): Value {
    match s
    case None => Absent
    case Some(h) =>
      Present(Struct([Member("public_key", Text(h.publicKey)), Member("algorithm", Text(h.algorithm)),
                      Member("value", Text(h.value))]))
  }

  function ManifestMembers(m: MediaManifest): seq<Member> {
    [Member("manifest_version", Unsigned(m.manifestVersion)),
     Member("room_id", Text(m.roomId)),
     Member("media", Sequence(Media(m.media))),
     Member("subtitles", Sequence(Subtitles(m.subtitles))),
     Member("created_at", Signed(m.createdAt)),
     Member("host_signature", SignatureValue(m.hostSignature))]
  }

  // ----- the normal form: every string normalised, the signature block dropped -----

  function NormalOption(nfc: Nfc, s: Option<string>): Option<string> {
    match s case None => None case Some(t) => Some(nfc(t))
  }

  function NormalTexts(nfc: Nfc, ss: seq<string>): seq<string> {
    seq(|ss|, i requires 0 <= i < |ss| => nfc(ss[i]))
  }

  function NormalCodecs(nfc: Nfc, c: Option<Codecs>): Option<Codecs> {
    match c
    case None => None
    case Some(x) => Some(Codecs(NormalOption(nfc, x.video), NormalOption(nfc, x.audio), NormalOption(nfc, x.container)))
  }

  function NormalSource(nfc: Nfc, s: Source): Source {
    s.(peerId := nfc(s.peerId), urlHint := NormalOption(nfc, s.urlHint), chunkHashes := NormalTexts(nfc, s.chunkHashes))
  }

  function NormalSources(nfc: Nfc, ss: seq<Source>): seq<Source> {
    seq(|ss|, i requires 0 <= i < |ss| => NormalSource(nfc, ss[i]))
  }

  function NormalEntry(nfc: Nfc, e: MediaEntry): MediaEntry {
    MediaEntry(nfc(e.id), nfc(e.filename), nfc(e.sha256), nfc(e.blake3), e.sizeBytes, nfc(e.mime), e.durationMs,
      e.dimensions, NormalCodecs(nfc, e.codecs), NormalSources(nfc, e.sources))
  }

  function NormalSubtitle(nfc: Nfc, e: SubtitleEntry): SubtitleEntry {
    SubtitleEntry(nfc(e.id), nfc(e.language), nfc(e.title), nfc(e.filename), nfc(e.sha256), e.sizeBytes, nfc(e.codec),
      NormalSources(nfc, e.sources))
  }

  function Normalize(nfc: Nfc, m: MediaManifest): MediaManifest {
    MediaManifest(m.manifestVersion, nfc(m.roomId),
      seq(|m.media|, i requires 0 <= i < |m.media| => NormalEntry(nfc, m.media[i])),
      seq(|m.subtitles|, i requires 0 <= i < |m.subtitles| => NormalSubtitle(nfc, m.subtitles[i])),
      m.createdAt, None)
  }

  // ----- reading a tree back -----

  function ReadText(n: Node): string { if n.String? then n.text else "" }

  function ReadOption(n: Node): Option<string> { if n.String? then Some(n.text) else None }

  function ReadInt(n: Node): int { if n.Number? then Whole(n.number) else 0 }

  function ReadU32(n: Node): u32 {
    var i := ReadInt(n);
    if 0 <= i < 0x1_0000_0000 then i else 0
  }

  function ReadI32(n: Node): i32 {
    var i := ReadInt(n);
    if -0x8000_0000 <= i < 0x8000_0000 then i else 0
  }

  function ReadU64(n: Node): u64 {
    var i := ReadInt(n);
    if 0 <= i then i else 0
  }

  function ReadI64(n: Node): i64 {
    var i := ReadInt(n);
    if i < 0x8000_0000_0000_0000 then i else 0
  }

  function Items(n: Node): seq<Node> { if n.Array? then n.items else [] }

  function ReadTexts(n: Node): seq<string> {
    seq(|Items(n)|, i requires 0 <= i < |Items(n)| => ReadText(Items(n)[i]))
  }

  function ReadDimensions(n: Node): Option<Dimensions> {
    if n.Null? then None else Some(Dimensions(ReadU32(At(n, "width")), ReadU32(At(n, "height"))))
  }

  function ReadCodecs(n: Node): Option<Codecs> {
    if n.Null? then None
    else Some(Codecs(ReadOption(At(n, "video")), ReadOption(At(n, "audio")), ReadOption(At(n, "container"))))
  }

  function ReadSource(n: Node): Source {
    Source(ReadText(At(n, "peer_id")), ReadOption(At(n, "url_hint")), ReadI32(At(n, "priority")),
      ReadU32(At(n, "chunk_size")), ReadU32(At(n, "total_chunks")), ReadTexts(At(n, "chunk_hashes")))
  }

  function ReadSources(n: Node): seq<Source> {
    seq(|Items(n)|, i requires 0 <= i < |Items(n)| => ReadSource(Items(n)[i]))
  }

  function ReadEntry(n: Node): MediaEntry {
    MediaEntry(ReadText(At(n, "id")), ReadText(At(n, "filename")), ReadText(At(n, "sha256")),
      ReadText(At(n, "blake3")), ReadU64(At(n, "size_bytes")), ReadText(At(n, "mime")), ReadU64(At(n, "duration_ms")),
      ReadDimensions(At(n, "dimensions")), ReadCodecs(At(n, "codecs")), ReadSources(At(n, "sources")))
  }

  function ReadSubtitle(n: Node): SubtitleEntry {
    SubtitleEntry(ReadText(At(n, "id")), ReadText(At(n, "language")), ReadText(At(n, "label")),
      ReadText(At(n, "filename")), ReadText(At(n, "sha256")), ReadU64(At(n, "size_bytes")), ReadText(At(n, "codec")),
      ReadSources(At(n, "sources")))
  }

  function ReadMedia(n: Node): seq<MediaEntry> {
    seq(|Items(n)|, i requires 0 <= i < |Items(n)| => ReadEntry(Items(n)[i]))
  }

  function ReadSubtitles(n: Node): seq<SubtitleEntry> {
    seq(|Items(n)|, i requires 0 <= i < |Items(n)| => ReadSubtitle(Items(n)[i]))
  }

  function ReadManifest(n: Node): MediaManifest {
    MediaManifest(ReadU32(At(n, "manifest_version")), ReadText(At(n, "room_id")), ReadMedia(At(n, "media")),
      ReadSubtitles(At(n, "subtitles")), ReadI64(At(n, "created_at")), None)
  }

  // ----- nothing in a manifest is refused -----

  lemma SkippableAdmissible(name: string, v: Option<Value>)
    requires v.None? || Admissible(v.value)
    ensures forall m :: m in Skippable(name, v) ==> Admissible(m.value)
  {}

  lemma MembersAdmissible(ms: seq<Member>)
    requires forall m :: m in ms ==> Admissible(m.value)
    ensures Admissible(Struct(ms))
  {
    assert forall i :: 0 <= i < |ms| ==> ms[i] in ms;
  }

  lemma SourceAdmissible(s: Source)
    ensures Admissible(Struct(SourceMembers(s)))
  {}

  lemma SourcesAdmissible(ss: seq<Source>)
    ensures Admissible(Sequence(Sources(ss)))
  {
    hide SourceMembers;
    forall i | 0 <= i < |ss|
      ensures Admissible(Struct(SourceMembers(ss[i])))
    {
      SourceAdmissible(ss[i]);
    }
  }

  lemma CodecsAdmissible(c: Codecs)
    ensures Admissible(Struct(CodecsMembers(c)))
  {
    MembersAdmissible(CodecsMembers(c));
  }

  lemma OptionsAdmissible(d: Option<Dimensions>, c: Option<Codecs>)
    ensures OptionDimensions(d).None? || Admissible(OptionDimensions(d).value)
    ensures OptionCodecs(c).None? || Admissible(OptionCodecs(c).value)
  {
    hide CodecsMembers, DimensionsMembers, Admissible;
    if c.Some? {
      CodecsAdmissible(c.value);
    }
    if d.Some? {
      DimensionsAdmissible(d.value);
    }
  }

  lemma EntryAdmissible(e: MediaEntry)
    ensures Admissible(Struct(MediaMembers(e)))
  {
    hide Sources, OptionDimensions, OptionCodecs, Skippable;
    SourcesAdmissible(e.sources);
    OptionsAdmissible(e.dimensions, e.codecs);
    SkippableAdmissible("dimensions", OptionDimensions(e.dimensions));
    SkippableAdmissible("codecs", OptionCodecs(e.codecs));
    MembersAdmissible(MediaMembers(e));
  }

  lemma DimensionsAdmissible(d: Dimensions)
    ensures Admissible(Struct(DimensionsMembers(d)))
  {}

  lemma SubtitleAdmissible(e: SubtitleEntry)
    ensures Admissible(Struct(SubtitleMembers(e)))
  {
    hide Sources;
    SourcesAdmissible(e.sources);
    MembersAdmissible(SubtitleMembers(e));
  }

  lemma MediaAdmissible(es: seq<MediaEntry>)
    ensures Admissible(Sequence(Media(es)))
  {
    hide MediaMembers;
    forall i | 0 <= i < |es|
      ensures Admissible(Struct(MediaMembers(es[i])))
    {
      EntryAdmissible(es[i]);
    }
  }

  lemma SubtitlesAdmissible(es: seq<SubtitleEntry>)
    ensures Admissible(Sequence(Subtitles(es)))
  {
    hide SubtitleMembers;
    forall i | 0 <= i < |es|
      ensures Admissible(Struct(SubtitleMembers(es[i])))
    {
      SubtitleAdmissible(es[i]);
    }
  }

  lemma SignatureAdmissible(h: Option<HostSignature>)
    ensures Admissible(SignatureValue(h))
  {
    if h.Some? {
      MembersAdmissible([Member("public_key", Text(h.value.publicKey)), Member("algorithm", Text(h.value.algorithm)),
                         Member("value", Text(h.value.value))]);
    }
  }

  lemma ManifestAdmissible(m: MediaManifest)
    ensures Admissible(Struct(ManifestMembers(m)))
  {
    MediaAdmissible(m.media);
    SubtitlesAdmissible(m.subtitles);
    SignatureAdmissible(m.hostSignature);
    hide Media, Subtitles, SignatureValue;
    MembersAdmissible(ManifestMembers(m));
  }

  // ----- field names are distinct -----

  lemma DistinctConcat(a: seq<Member>, b: seq<Member>)
    requires DistinctNames(a) && DistinctNames(b)
    requires forall m, k :: m in a && k in b ==> m.name != k.name
    ensures DistinctNames(a + b)
  {}

  lemma SourceDistinct(s: Source)
    ensures DistinctNames(SourceMembers(s))
  {}

  lemma CodecsDistinct(c: Codecs)
    ensures DistinctNames(CodecsMembers(c))
  {}

  predicate NamesApart(a: seq<Member>, b: seq<Member>) {
    forall i, j :: 0 <= i < |a| && 0 <= j < |b| ==> a[i].name != b[j].name
  }

  lemma DistinctSplit(ms: seq<Member>, k: nat)
    requires k <= |ms| && DistinctNames(ms[..k]) && DistinctNames(ms[k..]) && NamesApart(ms[..k], ms[k..])
    ensures DistinctNames(ms)
  {
    assert ms == ms[..k] + ms[k..];
    forall m, n | m in ms[..k] && n in ms[k..]
      ensures m.name != n.name
    {
      var i :| 0 <= i < k && ms[..k][i] == m;
      var j :| 0 <= j < |ms| - k && ms[k..][j] == n;
    }
    DistinctConcat(ms[..k], ms[k..]);
  }

  lemma MediaDistinct(e: MediaEntry)
    ensures DistinctNames(MediaMembers(e))
  {
    var ms := MediaMembers(e);
    assert |ms| >= 7;
    MediaFirst(e);
    MediaRest(e);
    MediaApart(e);
    hide MediaMembers, DistinctNames, NamesApart;
    DistinctSplit(ms, 7);
  }

  lemma MediaFirst(e: MediaEntry)
    ensures DistinctNames(MediaMembers(e)[..7])
  {
    hide Skippable, OptionDimensions, OptionCodecs;
    assert MediaMembers(e)[..7] == [
      Member("id", Text(e.id)), Member("filename", Text(e.filename)), Member("sha256", Text(e.sha256)),
      Member("blake3", Text(e.blake3)), Member("size_bytes", Unsigned(e.sizeBytes)), Member("mime", Text(e.mime)),
      Member("duration_ms", Unsigned(e.durationMs))];
  }

  lemma MediaRest(e: MediaEntry)
    ensures DistinctNames(MediaMembers(e)[7..])
  {
    hide OptionDimensions, OptionCodecs, Sources;
    assert MediaMembers(e)[7..] == Skippable("dimensions", OptionDimensions(e.dimensions))
      + Skippable("codecs", OptionCodecs(e.codecs)) + [Member("sources", Sequence(Sources(e.sources)))];
  }

  lemma MediaApart(e: MediaEntry)
    ensures NamesApart(MediaMembers(e)[..7], MediaMembers(e)[7..])
  {}

  lemma SubtitleDistinct(e: SubtitleEntry)
    ensures DistinctNames(SubtitleMembers(e))
  {
    var ms := SubtitleMembers(e);
    assert |ms| == 8;
    SubtitleFirst(e);
    SubtitleRest(e);
    SubtitleApart(e);
    hide SubtitleMembers, DistinctNames, NamesApart;
    DistinctSplit(ms, 4);
  }

  lemma SubtitleFirst(e: SubtitleEntry)
    ensures |SubtitleMembers(e)| == 8 && DistinctNames(SubtitleMembers(e)[..4])
  {
    assert SubtitleMembers(e)[..4] == [
      Member("id", Text(e.id)), Member("language", Text(e.language)), Member("label", Text(e.title)),
      Member("filename", Text(e.filename))];
  }

  lemma SubtitleRest(e: SubtitleEntry)
    ensures |SubtitleMembers(e)| == 8 && DistinctNames(SubtitleMembers(e)[4..])
  {
    hide Sources;
    assert SubtitleMembers(e)[4..] == [
      Member("sha256", Text(e.sha256)), Member("size_bytes", Unsigned(e.sizeBytes)), Member("codec", Text(e.codec)),
      Member("sources", Sequence(Sources(e.sources)))];
  }

  lemma SubtitleApart(e: SubtitleEntry)
    ensures |SubtitleMembers(e)| == 8 && NamesApart(SubtitleMembers(e)[..4], SubtitleMembers(e)[4..])
  {}

  lemma ManifestDistinct(m: MediaManifest)
    ensures DistinctNames(ManifestMembers(m))
  {}

  // ----- reading a struct -----

  /** What `StructAt` says after the number tags are erased. */
  lemma MemberAt(nfc: Nfc, ms: seq<Member>, m: Member)
    requires DistinctNames(ms) && Admissible(Struct(ms)) && m in ms
    ensures At(Erase(Tree(nfc, Struct(ms))), m.name) == Erase(Tree(nfc, m.value))
  {
    hide At, Erase, Tree, DistinctNames, Admissible;
    StructAt(nfc, ms, m.name);
    AtErased(Tree(nfc, Struct(ms)), m.name);
  }

  lemma SkippableAt(nfc: Nfc, ms: seq<Member>, name: string, v: Option<Value>)
    requires DistinctNames(ms) && Admissible(Struct(ms))
    requires forall m :: m in Skippable(name, v) ==> m in ms
    requires v.None? ==> forall m :: m in ms ==> m.name != name
    ensures At(Erase(Tree(nfc, Struct(ms))), name) == match v { case None => Null case Some(w) => Erase(Tree(nfc, w)) }
  {
    hide Erase, DistinctNames, Admissible;
    StructAt(nfc, ms, name);
    AtErased(Tree(nfc, Struct(ms)), name);
    match v {
      case None =>
        NullErased();
      case Some(w) =>
        assert Member(name, Present(w)) in Skippable(name, v);
    }
  }

  lemma NullErased()
    ensures Erase(Null) == Null
  {}
}
