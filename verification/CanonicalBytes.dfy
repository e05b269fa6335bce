/** `serialize` of shared/manifest/src/canonical.rs:504-570: the canonical bytes of a
    manifest, and a reader that recovers the manifest from them. */
module CanonicalBytes {
  import opened Wrappers
  import opened Words
  import opened JsonTree
  import JsonText
  import opened Canonical
  import opened CollectedTree
  import opened ManifestModel
  import Utf8

  // ----- reading a collected struct member by member -----

  /** The tree of a struct as the reader sees it. */
  function Seen(nfc: Nfc, v: Value): Node {
    JsonText.Erase(Tree(nfc, v))
  }

  /** A struct whose members can be looked up. */
  predicate Readable(ms: seq<Member>) {
    DistinctNames(ms) && Admissible(Struct(ms))
  }

  lemma SeenAt(nfc: Nfc, ms: seq<Member>, m: Member)
    requires Readable(ms) && m in ms
    ensures At(Seen(nfc, Struct(ms)), m.name) == Seen(nfc, m.value)
  {
    MemberAt(nfc, ms, m);
  }

  lemma TextSeen(nfc: Nfc, t: string)
    ensures Seen(nfc, Text(t)) == String(nfc(t)) && Seen(nfc, Present(Text(t))) == String(nfc(t))
  {}

  lemma AbsentSeen(nfc: Nfc)
    ensures Seen(nfc, Absent) == Null
  {}

  lemma IntSeen(nfc: Nfc, u: u64, i: i64)
    ensures ReadInt(Seen(nfc, Unsigned(u))) == u && ReadInt(Seen(nfc, Signed(i))) == i
  {}

  lemma TextAt(nfc: Nfc, ms: seq<Member>, name: string, t: string)
    requires Readable(ms) && Member(name, Text(t)) in ms
    ensures ReadText(At(Seen(nfc, Struct(ms)), name)) == nfc(t)
  {
    hide Readable, Seen;
    SeenAt(nfc, ms, Member(name, Text(t)));
    TextSeen(nfc, t);
  }

  lemma UnsignedAt(nfc: Nfc, ms: seq<Member>, name: string, u: u64)
    requires Readable(ms) && Member(name, Unsigned(u)) in ms
    ensures ReadInt(At(Seen(nfc, Struct(ms)), name)) == u
  {
    hide Readable, Seen;
    SeenAt(nfc, ms, Member(name, Unsigned(u)));
    IntSeen(nfc, u, 0);
  }

  lemma SignedAt(nfc: Nfc, ms: seq<Member>, name: string, i: i64)
    requires Readable(ms) && Member(name, Signed(i)) in ms
    ensures ReadInt(At(Seen(nfc, Struct(ms)), name)) == i
  {
    hide Readable, Seen;
    SeenAt(nfc, ms, Member(name, Signed(i)));
    IntSeen(nfc, 0, i);
  }

  /** An optional text, skipped when absent. */
  lemma SkippableTextAt(nfc: Nfc, ms: seq<Member>, name: string, s: Option<string>)
    requires Readable(ms)
    requires forall m :: m in Skippable(name, OptionText(s)) ==> m in ms
    requires s.None? ==> forall m :: m in ms ==> m.name != name
    ensures ReadOption(At(Seen(nfc, Struct(ms)), name)) == NormalOption(nfc, s)
  {
    hide At, DistinctNames, Admissible;
    SkippableAt(nfc, ms, name, OptionText(s));
    if s.Some? {
      TextSeen(nfc, s.value);
    }
  }

  lemma ItemsSeen(nfc: Nfc, vs: seq<Value>)
    requires Admissible(Sequence(vs))
    ensures |Items(Seen(nfc, Sequence(vs)))| == |vs|
    ensures forall i :: 0 <= i < |vs| ==> Items(Seen(nfc, Sequence(vs)))[i] == Seen(nfc, vs[i])
  {
    SequenceAt(nfc, vs);
  }

  // ----- each struct reads back as its normal form -----

  lemma TextsRead(nfc: Nfc, ss: seq<string>)
    ensures ReadTexts(Seen(nfc, Sequence(Texts(ss)))) == NormalTexts(nfc, ss)
  {
    hide Seen;
    ItemsSeen(nfc, Texts(ss));
    forall i | 0 <= i < |ss|
      ensures ReadText(Seen(nfc, Texts(ss)[i])) == nfc(ss[i])
    {
      TextSeen(nfc, ss[i]);
    }
  }

  lemma DimensionsRead(nfc: Nfc, d: Dimensions)
    ensures ReadDimensions(Seen(nfc, Struct(DimensionsMembers(d)))) == Some(d)
  {
    var ms := DimensionsMembers(d);
    DimensionsAdmissible(d);
    assert Readable(ms);
    StructSeen(nfc, ms);
    hide Seen, Readable, At, Admissible;
    UnsignedAt(nfc, ms, "width", d.width);
    UnsignedAt(nfc, ms, "height", d.height);
  }

  lemma StructSeen(nfc: Nfc, ms: seq<Member>)
    requires Admissible(Struct(ms))
    ensures Seen(nfc, Struct(ms)).Object?
  {
    hide Admissible, CollectMembers;
    CollectFails(nfc, Struct(ms));
  }

  lemma CodecsRead(nfc: Nfc, c: Codecs)
    ensures ReadCodecs(Seen(nfc, Struct(CodecsMembers(c)))) == NormalCodecs(nfc, Some(c))
  {
    var ms := CodecsMembers(c);
    CodecsAdmissible(c);
    CodecsDistinct(c);
    assert Readable(ms);
    StructSeen(nfc, ms);
    hide Seen, Readable, At, Admissible, DistinctNames;
    CodecsSkipped(c);
    hide CodecsMembers, Skippable, OptionText;
    SkippableTextAt(nfc, ms, "video", c.video);
    SkippableTextAt(nfc, ms, "audio", c.audio);
    SkippableTextAt(nfc, ms, "container", c.container);
  }

  lemma CodecsSkipped(c: Codecs)
    ensures forall m :: m in Skippable("video", OptionText(c.video)) ==> m in CodecsMembers(c)
    ensures forall m :: m in Skippable("audio", OptionText(c.audio)) ==> m in CodecsMembers(c)
    ensures forall m :: m in Skippable("container", OptionText(c.container)) ==> m in CodecsMembers(c)
    ensures c.video.None? ==> forall m :: m in CodecsMembers(c) ==> m.name != "video"
    ensures c.audio.None? ==> forall m :: m in CodecsMembers(c) ==> m.name != "audio"
    ensures c.container.None? ==> forall m :: m in CodecsMembers(c) ==> m.name != "container"
  {}

  lemma SourceRead(nfc: Nfc, s: Source)
    ensures ReadSource(Seen(nfc, Struct(SourceMembers(s)))) == NormalSource(nfc, s)
  {
    hide Seen, At, Admissible, DistinctNames;
    var ms := SourceMembers(s);
    SourceAdmissible(s);
    SourceDistinct(s);
    assert Readable(ms);
    hide Readable, Texts;
    TextAt(nfc, ms, "peer_id", s.peerId);
    UrlHintRead(nfc, s);
    SignedAt(nfc, ms, "priority", s.priority);
    UnsignedAt(nfc, ms, "chunk_size", s.chunkSize);
    UnsignedAt(nfc, ms, "total_chunks", s.totalChunks);
    SeenAt(nfc, ms, Member("chunk_hashes", Sequence(Texts(s.chunkHashes))));
    TextsRead(nfc, s.chunkHashes);
    hide SourceMembers, ReadTexts, NormalTexts;
  }

  lemma UrlHintRead(nfc: Nfc, s: Source)
    ensures ReadOption(At(Seen(nfc, Struct(SourceMembers(s))), "url_hint")) == NormalOption(nfc, s.urlHint)
  {
    hide Seen, At, Admissible, DistinctNames;
    var ms := SourceMembers(s);
    SourceAdmissible(s);
    SourceDistinct(s);
    SeenAt(nfc, ms, ms[1]);
    AbsentSeen(nfc);
    if s.urlHint.Some? {
      TextSeen(nfc, s.urlHint.value);
    }
  }

  lemma SourcesRead(nfc: Nfc, ss: seq<Source>)
    ensures ReadSources(Seen(nfc, Sequence(Sources(ss)))) == NormalSources(nfc, ss)
  {
    hide Seen, ReadSource, NormalSource, SourceMembers, Admissible;
    SourcesAdmissible(ss);
    ItemsSeen(nfc, Sources(ss));
    forall i | 0 <= i < |ss|
      ensures ReadSource(Seen(nfc, Sources(ss)[i])) == NormalSource(nfc, ss[i])
    {
      SourceRead(nfc, ss[i]);
    }
  }

  lemma EntryReadable(e: MediaEntry)
    ensures Readable(MediaMembers(e))
  {
    hide DistinctNames, Admissible, MediaMembers;
    EntryAdmissible(e);
    MediaDistinct(e);
  }

  lemma EntryTextsRead(nfc: Nfc, e: MediaEntry)
    ensures var n := Seen(nfc, Struct(MediaMembers(e)));
            && ReadText(At(n, "id")) == nfc(e.id) && ReadText(At(n, "filename")) == nfc(e.filename)
            && ReadText(At(n, "sha256")) == nfc(e.sha256) && ReadText(At(n, "blake3")) == nfc(e.blake3)
            && ReadText(At(n, "mime")) == nfc(e.mime)
  {
    hide Seen, At, Readable, Skippable, OptionDimensions, OptionCodecs, Sources, ReadText;
    var ms := MediaMembers(e);
    EntryReadable(e);
    TextAt(nfc, ms, "id", e.id);
    TextAt(nfc, ms, "filename", e.filename);
    TextAt(nfc, ms, "sha256", e.sha256);
    TextAt(nfc, ms, "blake3", e.blake3);
    TextAt(nfc, ms, "mime", e.mime);
  }

  lemma EntryRestRead(nfc: Nfc, e: MediaEntry)
    ensures var n := Seen(nfc, Struct(MediaMembers(e)));
            && ReadInt(At(n, "size_bytes")) == e.sizeBytes && ReadInt(At(n, "duration_ms")) == e.durationMs
            && ReadSources(At(n, "sources")) == NormalSources(nfc, e.sources)
  {
    hide Seen, At, Readable, Skippable, OptionDimensions, OptionCodecs, Sources, ReadInt, ReadSources, NormalSources;
    var ms := MediaMembers(e);
    EntryReadable(e);
    UnsignedAt(nfc, ms, "size_bytes", e.sizeBytes);
    UnsignedAt(nfc, ms, "duration_ms", e.durationMs);
    SeenAt(nfc, ms, Member("sources", Sequence(Sources(e.sources))));
    SourcesRead(nfc, e.sources);
  }

  lemma EntrySkipped(e: MediaEntry)
    ensures forall m :: m in Skippable("dimensions", OptionDimensions(e.dimensions)) ==> m in MediaMembers(e)
    ensures forall m :: m in Skippable("codecs", OptionCodecs(e.codecs)) ==> m in MediaMembers(e)
  {
    hide Skippable, OptionDimensions, OptionCodecs, Sources;
  }

  predicate Unnamed(ms: seq<Member>, name: string) {
    forall m :: m in ms ==> m.name != name
  }

  lemma UnnamedConcat(a: seq<Member>, b: seq<Member>, name: string)
    requires Unnamed(a, name) && Unnamed(b, name)
    ensures Unnamed(a + b, name)
  {}

  lemma SkippableUnnamed(given: string, v: Option<Value>, name: string)
    requires given != name || v.None?
    ensures Unnamed(Skippable(given, v), name)
  {}

  lemma EntryEndsUnnamed(e: MediaEntry, name: string)
    requires name == "dimensions" || name == "codecs"
    ensures Unnamed(MediaMembers(e)[..7], name)
    ensures Unnamed([Member("sources", Sequence(Sources(e.sources)))], name)
  {
    hide Skippable, OptionDimensions, OptionCodecs, Sources;
    assert MediaMembers(e)[..7] == [
      Member("id", Text(e.id)), Member("filename", Text(e.filename)), Member("sha256", Text(e.sha256)),
      Member("blake3", Text(e.blake3)), Member("size_bytes", Unsigned(e.sizeBytes)), Member("mime", Text(e.mime)),
      Member("duration_ms", Unsigned(e.durationMs))];
  }

  lemma EntryUnnamed(e: MediaEntry, name: string)
    requires (name == "dimensions" && e.dimensions.None?) || (name == "codecs" && e.codecs.None?)
    ensures Unnamed(MediaMembers(e), name)
  {
    var d, c := Skippable("dimensions", OptionDimensions(e.dimensions)), Skippable("codecs", OptionCodecs(e.codecs));
    SkippableUnnamed("dimensions", OptionDimensions(e.dimensions), name);
    SkippableUnnamed("codecs", OptionCodecs(e.codecs), name);
    EntryEndsUnnamed(e, name);
    hide Skippable, OptionDimensions, OptionCodecs, Sources, Unnamed;
    var a, z := MediaMembers(e)[..7], [Member("sources", Sequence(Sources(e.sources)))];
    assert MediaMembers(e) == a + d + c + z;
    UnnamedConcat(a, d, name);
    UnnamedConcat(a + d, c, name);
    UnnamedConcat(a + d + c, z, name);
  }

  lemma EntryOptionsRead(nfc: Nfc, e: MediaEntry)
    ensures var n := Seen(nfc, Struct(MediaMembers(e)));
            && ReadDimensions(At(n, "dimensions")) == e.dimensions
            && ReadCodecs(At(n, "codecs")) == NormalCodecs(nfc, e.codecs)
  {
    EntrySkipped(e);
    EntryReadable(e);
    if e.dimensions.None? {
      EntryUnnamed(e, "dimensions");
    }
    if e.codecs.None? {
      EntryUnnamed(e, "codecs");
    }
    hide At, DistinctNames, Admissible, Skippable, MediaMembers, CodecsMembers, DimensionsMembers, JsonText.Erase, Tree;
    var ms := MediaMembers(e);
    SkippableAt(nfc, ms, "dimensions", OptionDimensions(e.dimensions));
    SkippableAt(nfc, ms, "codecs", OptionCodecs(e.codecs));
    if e.dimensions.Some? {
      DimensionsRead(nfc, e.dimensions.value);
    }
    if e.codecs.Some? {
      CodecsRead(nfc, e.codecs.value);
    }
  }

  lemma EntryRead(nfc: Nfc, e: MediaEntry)
    ensures ReadEntry(Seen(nfc, Struct(MediaMembers(e)))) == NormalEntry(nfc, e)
  {
    hide Seen, At, MediaMembers, ReadText, ReadInt, ReadDimensions, ReadCodecs, ReadSources, NormalCodecs, NormalSources;
    EntryTextsRead(nfc, e);
    EntryRestRead(nfc, e);
    EntryOptionsRead(nfc, e);
  }

  lemma SubtitleReadable(e: SubtitleEntry)
    ensures Readable(SubtitleMembers(e))
  {
    hide DistinctNames, Admissible, SubtitleMembers;
    SubtitleAdmissible(e);
    SubtitleDistinct(e);
  }

  lemma SubtitleRead(nfc: Nfc, e: SubtitleEntry)
    ensures ReadSubtitle(Seen(nfc, Struct(SubtitleMembers(e)))) == NormalSubtitle(nfc, e)
  {
    hide Seen, At, Readable, Sources, ReadText, ReadInt, ReadSources, NormalSources;
    var ms := SubtitleMembers(e);
    SubtitleReadable(e);
    TextAt(nfc, ms, "id", e.id);
    TextAt(nfc, ms, "language", e.language);
    TextAt(nfc, ms, "label", e.title);
    TextAt(nfc, ms, "filename", e.filename);
    TextAt(nfc, ms, "sha256", e.sha256);
    TextAt(nfc, ms, "codec", e.codec);
    UnsignedAt(nfc, ms, "size_bytes", e.sizeBytes);
    SeenAt(nfc, ms, Member("sources", Sequence(Sources(e.sources))));
    SourcesRead(nfc, e.sources);
  }

  lemma MediaRead(nfc: Nfc, es: seq<MediaEntry>)
    ensures ReadMedia(Seen(nfc, Sequence(Media(es)))) == seq(|es|, i requires 0 <= i < |es| => NormalEntry(nfc, es[i]))
  {
    hide Seen, ReadEntry, NormalEntry, MediaMembers, Admissible;
    MediaAdmissible(es);
    ItemsSeen(nfc, Media(es));
    forall i | 0 <= i < |es|
      ensures ReadEntry(Seen(nfc, Media(es)[i])) == NormalEntry(nfc, es[i])
    {
      EntryRead(nfc, es[i]);
    }
  }

  lemma SubtitlesRead(nfc: Nfc, es: seq<SubtitleEntry>)
    ensures ReadSubtitles(Seen(nfc, Sequence(Subtitles(es))))
            == seq(|es|, i requires 0 <= i < |es| => NormalSubtitle(nfc, es[i]))
  {
    hide Seen, ReadSubtitle, NormalSubtitle, SubtitleMembers, Admissible;
    SubtitlesAdmissible(es);
    ItemsSeen(nfc, Subtitles(es));
    forall i | 0 <= i < |es|
      ensures ReadSubtitle(Seen(nfc, Subtitles(es)[i])) == NormalSubtitle(nfc, es[i])
    {
      SubtitleRead(nfc, es[i]);
    }
  }

  // ----- the signature block is replaced -----

  function Strip(n: Node): Node {
    match n
    case Object(fields) => Object(Insert(fields, Field("host_signature", Null)))
    case _ => n
  }

  lemma StripAt(n: Node, name: string)
    requires name != "host_signature"
    ensures At(JsonText.Erase(Strip(n)), name) == At(JsonText.Erase(n), name)
  {
    AtErased(Strip(n), name);
    AtErased(n, name);
    hide JsonText.Erase, Lookup, Insert;
    if n.Object? {
      LookupInsert(n.fields, Field("host_signature", Null), name);
    }
  }

  /** The canonical form always carries the slot, with null in it. */
  lemma SignatureIsNull(nfc: Nfc, m: MediaManifest)
    ensures var n := Strip(Tree(nfc, Struct(ManifestMembers(m))));
            n.Object? && Lookup(n.fields, "host_signature") == Some(Null)
  {
    hide ManifestMembers, Admissible, CollectMembers, Insert, Lookup;
    ManifestAdmissible(m);
    CollectFails(nfc, Struct(ManifestMembers(m)));
    LookupInsert(Tree(nfc, Struct(ManifestMembers(m))).fields, Field("host_signature", Null), "host_signature");
  }

  lemma ManifestReadable(m: MediaManifest)
    ensures Readable(ManifestMembers(m))
  {
    hide DistinctNames, Admissible, ManifestMembers;
    ManifestAdmissible(m);
    ManifestDistinct(m);
  }

  /** Reading the stripped tree gives the normal form. */
  lemma ManifestRead(nfc: Nfc, m: MediaManifest)
    ensures ReadManifest(JsonText.Erase(Strip(Tree(nfc, Struct(ManifestMembers(m)))))) == Normalize(nfc, m)
  {
    var t := Tree(nfc, Struct(ManifestMembers(m)));
    StripAt(t, "manifest_version");
    StripAt(t, "room_id");
    StripAt(t, "media");
    StripAt(t, "subtitles");
    StripAt(t, "created_at");
    assert JsonText.Erase(t) == Seen(nfc, Struct(ManifestMembers(m)));
    ManifestMembersRead(nfc, m);
    hide Seen, At, ManifestMembers, Strip, JsonText.Erase, ReadText, ReadInt, ReadMedia, ReadSubtitles, Tree, NormalEntry, NormalSubtitle;
  }

  lemma ManifestMembersRead(nfc: Nfc, m: MediaManifest)
    ensures var n := Seen(nfc, Struct(ManifestMembers(m)));
            && ReadInt(At(n, "manifest_version")) == m.manifestVersion && ReadText(At(n, "room_id")) == nfc(m.roomId)
            && ReadMedia(At(n, "media")) == Normalize(nfc, m).media
            && ReadSubtitles(At(n, "subtitles")) == Normalize(nfc, m).subtitles
            && ReadInt(At(n, "created_at")) == m.createdAt
  {
    hide Seen, At, Readable, Media, Subtitles, SignatureValue, ReadText, ReadInt, ReadMedia, ReadSubtitles, NormalEntry, NormalSubtitle;
    var ms := ManifestMembers(m);
    ManifestReadable(m);
    UnsignedAt(nfc, ms, "manifest_version", m.manifestVersion);
    TextAt(nfc, ms, "room_id", m.roomId);
    SignedAt(nfc, ms, "created_at", m.createdAt);
    SeenAt(nfc, ms, Member("media", Sequence(Media(m.media))));
    SeenAt(nfc, ms, Member("subtitles", Sequence(Subtitles(m.subtitles))));
    MediaRead(nfc, m.media);
    SubtitlesRead(nfc, m.subtitles);
  }

  // ----- the canonical bytes -----

  function Serialize(nfc: Nfc, m: MediaManifest): Result<Bytes, CanonicalError> {
    match Collect(nfc, Struct(ManifestMembers(m)))
    case Err(e) => Err(e)
    case Ok(tree) => Ok(Utf8.Encode(JsonText.Print(Strip(tree))) + [0x0A])
  }

  function Recover(b: Bytes): Option<MediaManifest> {
    if b == [] || b[|b| - 1] != 0x0A then None
    else match Utf8.Decode(b[..|b| - 1])
      case None => None
      case Some(text) =>
        match JsonText.Parse(text)
        case None => None
        case Some(r) => if r.rest == "" then Some(ReadManifest(r.value)) else None
  }

  /** Serialising never fails, whatever the manifest holds. */
  lemma SerializeSucceeds(nfc: Nfc, m: MediaManifest)
    ensures Serialize(nfc, m) == Ok(Utf8.Encode(JsonText.Print(Strip(Tree(nfc, Struct(ManifestMembers(m)))))) + [0x0A])
  {
    hide ManifestMembers, Admissible, Utf8.Encode, JsonText.Print, Strip;
    ManifestAdmissible(m);
    CollectFails(nfc, Struct(ManifestMembers(m)));
  }

  /** The bytes determine every field of the manifest, up to normalisation and the
      signature block. */
  lemma RecoverSerialize(nfc: Nfc, m: MediaManifest)
    ensures Serialize(nfc, m).Ok? && Recover(Serialize(nfc, m).value) == Some(Normalize(nfc, m))
  {
    hide Serialize, ManifestMembers, Utf8.Encode, Utf8.Decode, JsonText.Print, JsonText.Parse, JsonText.Erase, Strip, ReadManifest, Normalize, Tree;
    SerializeSucceeds(nfc, m);
    var n := Strip(Tree(nfc, Struct(ManifestMembers(m))));
    var text := JsonText.Print(n);
    var b := Serialize(nfc, m).value;
    assert b[..|b| - 1] == Utf8.Encode(text);
    Utf8.DecodeEncode(text);
    JsonText.ParsePrint(n, "");
    assert text + "" == text;
    ManifestRead(nfc, m);
  }

  /** Keys strictly increase at every depth of what is printed. */
  lemma CanonicalIsSorted(nfc: Nfc, m: MediaManifest)
    ensures Sorted(Strip(Tree(nfc, Struct(ManifestMembers(m)))))
  {
    hide ManifestMembers, Collect, Sorted, Insert;
    ManifestCollected(nfc, m);
    CollectSorted(nfc, Struct(ManifestMembers(m)));
    var t := Tree(nfc, Struct(ManifestMembers(m)));
    NullSorted();
    if t.Object? {
      InsertKeepsSorted(t.fields, Field("host_signature", Null));
    }
  }

  lemma NullSorted()
    ensures Sorted(Null)
  {}

  lemma ManifestCollected(nfc: Nfc, m: MediaManifest)
    ensures Collect(nfc, Struct(ManifestMembers(m))) == Ok(Tree(nfc, Struct(ManifestMembers(m))))
  {
    hide ManifestMembers, Admissible, Collect;
    ManifestAdmissible(m);
    CollectFails(nfc, Struct(ManifestMembers(m)));
  }

  /** The final newline is the only byte below 0x20. */
  lemma OnlyTheFinalNewline(nfc: Nfc, m: MediaManifest)
    ensures Serialize(nfc, m).Ok?
    ensures var b := Serialize(nfc, m).value;
            b != [] && forall i :: 0 <= i < |b| ==> (b[i] < 0x20 <==> i == |b| - 1) && (b[i] == 0x0A <==> i == |b| - 1)
  {
    hide Serialize, ManifestMembers, Utf8.Encode, JsonText.Print, Strip, Tree;
    SerializeSucceeds(nfc, m);
    var text := JsonText.Print(Strip(Tree(nfc, Struct(ManifestMembers(m)))));
    JsonText.PrintPrintable(Strip(Tree(nfc, Struct(ManifestMembers(m)))));
    Utf8.NoControlBytes(text);
    var u := Utf8.Encode(text);
    assert forall i :: 0 <= i < |u| ==> u[i] in u;
  }
}
