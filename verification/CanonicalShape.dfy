/** The canonical tree of a manifest, written out: exactly which keys each object has and
    what is under them (shared/manifest/src/model.rs:12-131, canonical.rs:504-570). */
module CanonicalShape {
  import opened Wrappers
  import opened Words
  import opened JsonTree
  import opened Canonical
  import opened CollectedTree
  import opened ManifestModel
  import opened CanonicalBytes
  import JsonText
  import Utf8

  // ----- the shape -----

  ghost predicate HasKeys(n: Node, keys: set<string>) {
    n.Object? && forall key :: Lookup(n.fields, key).Some? <==> key in keys
  }

  function Key(name: string, present: bool): set<string> {
    if present then {name} else {}
  }

  ghost predicate IsTexts(nfc: Nfc, n: Node, ss: seq<string>) {
    n.Array? && |n.items| == |ss| && forall i :: 0 <= i < |ss| ==> n.items[i] == String(nfc(ss[i]))
  }

  ghost predicate IsDimensions(n: Node, d: Dimensions) {
    && HasKeys(n, {"height", "width"})
    && At(n, "width") == Node.Number(PosInt(d.width)) && At(n, "height") == Node.Number(PosInt(d.height))
  }

  ghost predicate IsCodecs(nfc: Nfc, n: Node, c: Codecs) {
    && HasKeys(n, Key("audio", c.audio.Some?) + Key("container", c.container.Some?) + Key("video", c.video.Some?))
    && (c.audio.Some? ==> At(n, "audio") == String(nfc(c.audio.value)))
    && (c.container.Some? ==> At(n, "container") == String(nfc(c.container.value)))
    && (c.video.Some? ==> At(n, "video") == String(nfc(c.video.value)))
  }

  /** The hint is always there, null if there is none. */
  ghost predicate IsSource(nfc: Nfc, n: Node, s: Source) {
    && HasKeys(n, {"chunk_hashes", "chunk_size", "peer_id", "priority", "total_chunks", "url_hint"})
    && IsTexts(nfc, At(n, "chunk_hashes"), s.chunkHashes)
    && At(n, "chunk_size") == Node.Number(PosInt(s.chunkSize))
    && At(n, "peer_id") == String(nfc(s.peerId))
    && At(n, "priority") == Node.Number(NegInt(s.priority))
    && At(n, "total_chunks") == Node.Number(PosInt(s.totalChunks))
    && At(n, "url_hint") == match s.urlHint { case None => Null case Some(t) => String(nfc(t)) }
  }

  ghost predicate IsSources(nfc: Nfc, n: Node, ss: seq<Source>) {
    n.Array? && |n.items| == |ss| && forall i :: 0 <= i < |ss| ==> IsSource(nfc, n.items[i], ss[i])
  }

  /** Dimensions and codecs are there exactly if they are known. */
  ghost predicate IsEntry(nfc: Nfc, n: Node, e: MediaEntry) {
    && HasKeys(n, {"blake3", "duration_ms", "filename", "id", "mime", "sha256", "size_bytes", "sources"}
                  + Key("codecs", e.codecs.Some?) + Key("dimensions", e.dimensions.Some?))
    && At(n, "blake3") == String(nfc(e.blake3))
    && (e.codecs.Some? ==> IsCodecs(nfc, At(n, "codecs"), e.codecs.value))
    && (e.dimensions.Some? ==> IsDimensions(At(n, "dimensions"), e.dimensions.value))
    && At(n, "duration_ms") == Node.Number(PosInt(e.durationMs))
    && At(n, "filename") == String(nfc(e.filename))
    && At(n, "id") == String(nfc(e.id))
    && At(n, "mime") == String(nfc(e.mime))
    && At(n, "sha256") == String(nfc(e.sha256))
    && At(n, "size_bytes") == Node.Number(PosInt(e.sizeBytes))
    && IsSources(nfc, At(n, "sources"), e.sources)
  }

  ghost predicate IsMedia(nfc: Nfc, n: Node, es: seq<MediaEntry>) {
    n.Array? && |n.items| == |es| && forall i :: 0 <= i < |es| ==> IsEntry(nfc, n.items[i], es[i])
  }

  ghost predicate IsSubtitle(nfc: Nfc, n: Node, e: SubtitleEntry) {
    && HasKeys(n, {"codec", "filename", "id", "label", "language", "sha256", "size_bytes", "sources"})
    && At(n, "codec") == String(nfc(e.codec))
    && At(n, "filename") == String(nfc(e.filename))
    && At(n, "id") == String(nfc(e.id))
    && At(n, "label") == String(nfc(e.title))
    && At(n, "language") == String(nfc(e.language))
    && At(n, "sha256") == String(nfc(e.sha256))
    && At(n, "size_bytes") == Node.Number(PosInt(e.sizeBytes))
    && IsSources(nfc, At(n, "sources"), e.sources)
  }

  ghost predicate IsSubtitles(nfc: Nfc, n: Node, es: seq<SubtitleEntry>) {
    n.Array? && |n.items| == |es| && forall i :: 0 <= i < |es| ==> IsSubtitle(nfc, n.items[i], es[i])
  }

  /** The signature slot is always there and always null. */
  ghost predicate IsManifest(nfc: Nfc, n: Node, m: MediaManifest) {
    && HasKeys(n, {"created_at", "host_signature", "manifest_version", "media", "room_id", "subtitles"})
    && At(n, "created_at") == Node.Number(NegInt(m.createdAt))
    && At(n, "host_signature") == Null
    && At(n, "manifest_version") == Node.Number(PosInt(m.manifestVersion))
    && IsMedia(nfc, At(n, "media"), m.media)
    && At(n, "room_id") == String(nfc(m.roomId))
    && IsSubtitles(nfc, At(n, "subtitles"), m.subtitles)
  }

  // ----- every manifest is collected into that shape -----

  function Names(ms: seq<Member>): (ns: seq<string>)
    ensures |ns| == |ms|
  {
    seq(|ms|, i requires 0 <= i < |ms| => ms[i].name)
  }

  lemma NamesConcat(a: seq<Member>, b: seq<Member>)
    ensures Names(a + b) == Names(a) + Names(b)
  {}

  lemma StructKeys(nfc: Nfc, ms: seq<Member>)
    requires Readable(ms)
    ensures var n := Tree(nfc, Struct(ms)); n.Object? && forall key :: Lookup(n.fields, key).Some? <==> key in Names(ms)
    ensures forall m :: m in ms ==> At(Tree(nfc, Struct(ms)), m.name) == Tree(nfc, m.value)
  {
    hide Admissible, DistinctNames, Unambiguous, InsertAll, Lookup, CollectMembers;
    CollectFails(nfc, Struct(ms));
    MembersInserted(nfc, ms);
    MembersUnambiguous(nfc, ms);
    var fs := MemberFields(nfc, ms);
    var n := Tree(nfc, Struct(ms));
    assert n == Object(InsertAll([], fs));
    hide Collect, Tree, Names;
    forall key
      ensures Lookup(n.fields, key).Some? <==> key in Names(ms)
    {
      LookupAll(fs, key);
      NamesFields(nfc, ms, key);
    }
    forall m | m in ms
      ensures At(n, m.name) == Tree(nfc, m.value)
    {
      StructAt(nfc, ms, m.name);
    }
  }

  lemma NamesFields(nfc: Nfc, ms: seq<Member>, key: string)
    ensures key in Names(ms) <==> exists value :: Field(key, value) in MemberFields(nfc, ms)
  {
    hide Tree;
    var fs := MemberFields(nfc, ms);
    if key in Names(ms) {
      var i :| 0 <= i < |ms| && Names(ms)[i] == key;
      assert fs[i] in fs && fs[i] == Field(key, Tree(nfc, ms[i].value));
    }
    if value :| Field(key, value) in fs {
      var i :| 0 <= i < |fs| && fs[i] == Field(key, value);
      assert Names(ms)[i] == key;
    }
  }

  lemma LeavesCollected(nfc: Nfc, t: string, u: u64, i: i64)
    ensures Tree(nfc, Text(t)) == String(nfc(t)) && Tree(nfc, Present(Text(t))) == String(nfc(t))
    ensures Tree(nfc, Unsigned(u)) == Node.Number(PosInt(u)) && Tree(nfc, Signed(i)) == Node.Number(NegInt(i))
    ensures Tree(nfc, Absent) == Null
  {}

  lemma ItemsAre(nfc: Nfc, vs: seq<Value>)
    requires Admissible(Sequence(vs))
    ensures var n := Tree(nfc, Sequence(vs));
            n.Array? && |n.items| == |vs| && forall i :: 0 <= i < |vs| ==> n.items[i] == Tree(nfc, vs[i])
  {
    hide Admissible, CollectItems;
    CollectFails(nfc, Sequence(vs));
    ItemsCollected(nfc, vs);
  }

  lemma KeysAre(nfc: Nfc, ms: seq<Member>, keys: set<string>)
    requires Readable(ms) && forall key :: key in keys <==> key in Names(ms)
    ensures HasKeys(Tree(nfc, Struct(ms)), keys)
  {
    hide Readable, Tree, Names, Lookup;
    StructKeys(nfc, ms);
  }

  lemma MemberIs(nfc: Nfc, ms: seq<Member>, name: string, v: Value)
    requires Readable(ms) && Member(name, v) in ms
    ensures At(Tree(nfc, Struct(ms)), name) == Tree(nfc, v)
  {
    hide Readable, Tree, Names, Lookup, At;
    StructKeys(nfc, ms);
  }

  lemma TextIs(nfc: Nfc, ms: seq<Member>, name: string, t: string)
    requires Readable(ms) && Member(name, Text(t)) in ms
    ensures At(Tree(nfc, Struct(ms)), name) == String(nfc(t))
  {
    hide Readable, Tree, At;
    MemberIs(nfc, ms, name, Text(t));
    LeavesCollected(nfc, t, 0, 0);
  }

  lemma UnsignedIs(nfc: Nfc, ms: seq<Member>, name: string, u: u64)
    requires Readable(ms) && Member(name, Unsigned(u)) in ms
    ensures At(Tree(nfc, Struct(ms)), name) == Node.Number(PosInt(u))
  {
    hide Readable, Tree, At;
    MemberIs(nfc, ms, name, Unsigned(u));
    LeavesCollected(nfc, "", u, 0);
  }

  lemma SignedIs(nfc: Nfc, ms: seq<Member>, name: string, i: i64)
    requires Readable(ms) && Member(name, Signed(i)) in ms
    ensures At(Tree(nfc, Struct(ms)), name) == Node.Number(NegInt(i))
  {
    hide Readable, Tree, At;
    MemberIs(nfc, ms, name, Signed(i));
    LeavesCollected(nfc, "", 0, i);
  }

  lemma DimensionsShape(nfc: Nfc, d: Dimensions)
    ensures IsDimensions(Tree(nfc, Struct(DimensionsMembers(d))), d)
  {
    var ms := DimensionsMembers(d);
    DimensionsAdmissible(d);
    StructKeys(nfc, ms);
    assert Names(ms) == ["width", "height"];
    hide At, Lookup, Tree, Readable;
    assert ms[0] in ms && ms[1] in ms;
    LeavesCollected(nfc, "", d.width, 0);
    LeavesCollected(nfc, "", d.height, 0);
  }

  lemma SkippableNames(name: string, v: Option<Value>)
    ensures Names(Skippable(name, v)) == if v.Some? then [name] else []
    ensures v.Some? ==> Member(name, Present(v.value)) in Skippable(name, v)
  {}

  lemma CodecsKeys(c: Codecs)
    ensures forall key :: key in Names(CodecsMembers(c))
              <==> key in Key("audio", c.audio.Some?) + Key("container", c.container.Some?) + Key("video", c.video.Some?)
  {
    var v, a, k := Skippable("video", OptionText(c.video)), Skippable("audio", OptionText(c.audio)), Skippable("container", OptionText(c.container));
    OptionTextLeaf(c.video);
    OptionTextLeaf(c.audio);
    OptionTextLeaf(c.container);
    hide Names, Skippable, OptionText;
    NamesConcat(v, a);
    NamesConcat(v + a, k);
    SkippableNames("video", OptionText(c.video));
    SkippableNames("audio", OptionText(c.audio));
    SkippableNames("container", OptionText(c.container));
  }

  lemma SkippedTextIs(nfc: Nfc, ms: seq<Member>, name: string, s: Option<string>)
    requires Readable(ms) && forall m :: m in Skippable(name, OptionText(s)) ==> m in ms
    ensures s.Some? ==> At(Tree(nfc, Struct(ms)), name) == String(nfc(s.value))
  {
    hide Readable, Tree, At;
    if s.Some? {
      SkippableNames(name, OptionText(s));
      MemberIs(nfc, ms, name, Present(Text(s.value)));
      LeavesCollected(nfc, s.value, 0, 0);
    }
  }

  lemma CodecsShape(nfc: Nfc, c: Codecs)
    ensures IsCodecs(nfc, Tree(nfc, Struct(CodecsMembers(c))), c)
  {
    var ms := CodecsMembers(c);
    CodecsAdmissible(c);
    CodecsDistinct(c);
    assert Readable(ms);
    CodecsSkipped(c);
    CodecsKeys(c);
    hide At, HasKeys, Tree, Readable, Names, Skippable, CodecsMembers, OptionText, Key;
    KeysAre(nfc, ms, Key("audio", c.audio.Some?) + Key("container", c.container.Some?) + Key("video", c.video.Some?));
    SkippedTextIs(nfc, ms, "video", c.video);
    SkippedTextIs(nfc, ms, "audio", c.audio);
    SkippedTextIs(nfc, ms, "container", c.container);
  }

  lemma OptionTextLeaf(s: Option<string>)
    ensures OptionText(s).Some? <==> s.Some?
  {}

  lemma TextsShape(nfc: Nfc, ss: seq<string>)
    ensures IsTexts(nfc, Tree(nfc, Sequence(Texts(ss))), ss)
  {
    hide Tree;
    ItemsAre(nfc, Texts(ss));
    forall i | 0 <= i < |ss|
      ensures Tree(nfc, Texts(ss)[i]) == String(nfc(ss[i]))
    {
      LeavesCollected(nfc, ss[i], 0, 0);
    }
  }

  lemma SourceReadable(s: Source)
    ensures Readable(SourceMembers(s))
  {
    hide DistinctNames, Admissible, SourceMembers;
    SourceAdmissible(s);
    SourceDistinct(s);
  }

  lemma SourceKeys(nfc: Nfc, s: Source)
    ensures HasKeys(Tree(nfc, Struct(SourceMembers(s))),
                    {"chunk_hashes", "chunk_size", "peer_id", "priority", "total_chunks", "url_hint"})
  {
    var ms := SourceMembers(s);
    SourceReadable(s);
    assert Names(ms) == ["peer_id", "url_hint", "priority", "chunk_size", "total_chunks", "chunk_hashes"];
    hide HasKeys, Tree, Readable, Names, SourceMembers;
    KeysAre(nfc, ms, {"chunk_hashes", "chunk_size", "peer_id", "priority", "total_chunks", "url_hint"});
  }

  lemma HintShape(nfc: Nfc, s: Source)
    ensures At(Tree(nfc, Struct(SourceMembers(s))), "url_hint")
            == match s.urlHint { case None => Null case Some(t) => String(nfc(t)) }
  {
    var ms := SourceMembers(s);
    SourceReadable(s);
    hide At, Tree, Readable;
    MemberIs(nfc, ms, "url_hint", ms[1].value);
    LeavesCollected(nfc, if s.urlHint.Some? then s.urlHint.value else "", 0, 0);
  }

  lemma SourceShape(nfc: Nfc, s: Source)
    ensures IsSource(nfc, Tree(nfc, Struct(SourceMembers(s))), s)
  {
    var ms := SourceMembers(s);
    SourceReadable(s);
    hide At, HasKeys, Tree, Readable, IsTexts, Texts;
    SourceKeys(nfc, s);
    HintShape(nfc, s);
    TextsShape(nfc, s.chunkHashes);
    MemberIs(nfc, ms, "chunk_hashes", Sequence(Texts(s.chunkHashes)));
    TextIs(nfc, ms, "peer_id", s.peerId);
    SignedIs(nfc, ms, "priority", s.priority);
    UnsignedIs(nfc, ms, "chunk_size", s.chunkSize);
    UnsignedIs(nfc, ms, "total_chunks", s.totalChunks);
  }

  lemma SourcesShape(nfc: Nfc, ss: seq<Source>)
    ensures IsSources(nfc, Tree(nfc, Sequence(Sources(ss))), ss)
  {
    hide Tree, SourceMembers, Admissible, IsSource;
    SourcesAdmissible(ss);
    ItemsAre(nfc, Sources(ss));
    forall i | 0 <= i < |ss|
      ensures IsSource(nfc, Tree(nfc, Sources(ss)[i]), ss[i])
    {
      SourceShape(nfc, ss[i]);
    }
  }

  lemma EntryNames(e: MediaEntry)
    ensures Names(MediaMembers(e))
            == ["id", "filename", "sha256", "blake3", "size_bytes", "mime", "duration_ms"]
               + (if e.dimensions.Some? then ["dimensions"] else []) + (if e.codecs.Some? then ["codecs"] else []) + ["sources"]
  {
    var ms := MediaMembers(e);
    var d, c := Skippable("dimensions", OptionDimensions(e.dimensions)), Skippable("codecs", OptionCodecs(e.codecs));
    var z := [Member("sources", Sequence(Sources(e.sources)))];
    assert ms == ms[..7] + d + c + z;
    assert Names(ms[..7]) == ["id", "filename", "sha256", "blake3", "size_bytes", "mime", "duration_ms"];
    assert OptionDimensions(e.dimensions).Some? <==> e.dimensions.Some?;
    assert OptionCodecs(e.codecs).Some? <==> e.codecs.Some?;
    hide MediaMembers, Skippable, OptionDimensions, OptionCodecs, Sources;
    SkippableNames("dimensions", OptionDimensions(e.dimensions));
    SkippableNames("codecs", OptionCodecs(e.codecs));
    NamesConcat(ms[..7], d);
    NamesConcat(ms[..7] + d, c);
    NamesConcat(ms[..7] + d + c, z);
    assert Names(z) == ["sources"];
  }

  lemma EntryTexts(nfc: Nfc, e: MediaEntry)
    ensures var n := Tree(nfc, Struct(MediaMembers(e)));
            && At(n, "id") == String(nfc(e.id)) && At(n, "filename") == String(nfc(e.filename))
            && At(n, "sha256") == String(nfc(e.sha256)) && At(n, "blake3") == String(nfc(e.blake3))
            && At(n, "mime") == String(nfc(e.mime))
  {
    hide At, Tree, Readable, Skippable, OptionDimensions, OptionCodecs, Sources;
    var ms := MediaMembers(e);
    EntryReadable(e);
    TextIs(nfc, ms, "id", e.id);
    TextIs(nfc, ms, "filename", e.filename);
    TextIs(nfc, ms, "sha256", e.sha256);
    TextIs(nfc, ms, "blake3", e.blake3);
    TextIs(nfc, ms, "mime", e.mime);
  }

  lemma EntryRest(nfc: Nfc, e: MediaEntry)
    ensures var n := Tree(nfc, Struct(MediaMembers(e)));
            && At(n, "size_bytes") == Node.Number(PosInt(e.sizeBytes))
            && At(n, "duration_ms") == Node.Number(PosInt(e.durationMs))
            && IsSources(nfc, At(n, "sources"), e.sources)
  {
    hide At, Tree, Readable, Skippable, OptionDimensions, OptionCodecs, Sources, IsSources;
    var ms := MediaMembers(e);
    EntryReadable(e);
    UnsignedIs(nfc, ms, "size_bytes", e.sizeBytes);
    UnsignedIs(nfc, ms, "duration_ms", e.durationMs);
    MemberIs(nfc, ms, "sources", Sequence(Sources(e.sources)));
    SourcesShape(nfc, e.sources);
  }

  lemma OptionalIs(nfc: Nfc, ms: seq<Member>, name: string, v: Option<Value>)
    requires Readable(ms) && forall m :: m in Skippable(name, v) ==> m in ms
    ensures v.Some? ==> At(Tree(nfc, Struct(ms)), name) == Tree(nfc, v.value)
  {
    if v.Some? {
      SkippableNames(name, v);
      hide Readable, At, Skippable, CollectMembers;
      MemberIs(nfc, ms, name, Present(v.value));
    }
  }

  lemma EntryOptional(nfc: Nfc, e: MediaEntry)
    ensures var n := Tree(nfc, Struct(MediaMembers(e)));
            && (e.dimensions.Some? ==> IsDimensions(At(n, "dimensions"), e.dimensions.value))
            && (e.codecs.Some? ==> IsCodecs(nfc, At(n, "codecs"), e.codecs.value))
  {
    hide At, Readable, Tree, IsDimensions, IsCodecs, MediaMembers, CodecsMembers, DimensionsMembers, Skippable;
    var ms := MediaMembers(e);
    EntryReadable(e);
    EntrySkipped(e);
    OptionalIs(nfc, ms, "dimensions", OptionDimensions(e.dimensions));
    OptionalIs(nfc, ms, "codecs", OptionCodecs(e.codecs));
    if e.dimensions.Some? {
      DimensionsShape(nfc, e.dimensions.value);
    }
    if e.codecs.Some? {
      CodecsShape(nfc, e.codecs.value);
    }
  }

  lemma EntryKeys(nfc: Nfc, e: MediaEntry)
    ensures HasKeys(Tree(nfc, Struct(MediaMembers(e))),
                    {"blake3", "duration_ms", "filename", "id", "mime", "sha256", "size_bytes", "sources"}
                    + Key("codecs", e.codecs.Some?) + Key("dimensions", e.dimensions.Some?))
  {
    hide HasKeys, Tree, Readable, Names, MediaMembers;
    EntryReadable(e);
    EntryNames(e);
    KeysAre(nfc, MediaMembers(e), {"blake3", "duration_ms", "filename", "id", "mime", "sha256", "size_bytes", "sources"}
                    + Key("codecs", e.codecs.Some?) + Key("dimensions", e.dimensions.Some?));
  }

  lemma EntryShape(nfc: Nfc, e: MediaEntry)
    ensures IsEntry(nfc, Tree(nfc, Struct(MediaMembers(e))), e)
  {
    hide At, HasKeys, Key, IsDimensions, IsCodecs, IsSources, MediaMembers, Tree;
    EntryTexts(nfc, e);
    EntryRest(nfc, e);
    EntryOptional(nfc, e);
    EntryKeys(nfc, e);
  }

  lemma MediaShape(nfc: Nfc, es: seq<MediaEntry>)
    ensures IsMedia(nfc, Tree(nfc, Sequence(Media(es))), es)
  {
    hide Tree, MediaMembers, Admissible, IsEntry;
    MediaAdmissible(es);
    ItemsAre(nfc, Media(es));
    forall i | 0 <= i < |es|
      ensures IsEntry(nfc, Tree(nfc, Media(es)[i]), es[i])
    {
      EntryShape(nfc, es[i]);
    }
  }

  lemma SubtitleNames(e: SubtitleEntry)
    ensures Names(SubtitleMembers(e)) == ["id", "language", "label", "filename"] + ["sha256", "size_bytes", "codec", "sources"]
  {
    hide Sources;
    var ms := SubtitleMembers(e);
    var a := [Member("id", Text(e.id)), Member("language", Text(e.language)), Member("label", Text(e.title)),
              Member("filename", Text(e.filename))];
    var b := [Member("sha256", Text(e.sha256)), Member("size_bytes", Unsigned(e.sizeBytes)),
              Member("codec", Text(e.codec)), Member("sources", Sequence(Sources(e.sources)))];
    assert ms == a + b;
    assert Names(a) == ["id", "language", "label", "filename"];
    assert Names(b) == ["sha256", "size_bytes", "codec", "sources"];
    hide SubtitleMembers, Names;
    NamesConcat(a, b);
  }

  lemma SubtitleKeys(nfc: Nfc, e: SubtitleEntry)
    ensures HasKeys(Tree(nfc, Struct(SubtitleMembers(e))),
                    {"codec", "filename", "id", "label", "language", "sha256", "size_bytes", "sources"})
  {
    hide HasKeys, Tree, Readable, Names, SubtitleMembers;
    SubtitleReadable(e);
    SubtitleNames(e);
    KeysAre(nfc, SubtitleMembers(e), {"codec", "filename", "id", "label", "language", "sha256", "size_bytes", "sources"});
  }

  lemma SubtitleShape(nfc: Nfc, e: SubtitleEntry)
    ensures IsSubtitle(nfc, Tree(nfc, Struct(SubtitleMembers(e))), e)
  {
    hide At, HasKeys, Tree, Readable, Sources, IsSources;
    var ms := SubtitleMembers(e);
    SubtitleReadable(e);
    SubtitleKeys(nfc, e);
    TextIs(nfc, ms, "id", e.id);
    TextIs(nfc, ms, "language", e.language);
    TextIs(nfc, ms, "label", e.title);
    TextIs(nfc, ms, "filename", e.filename);
    TextIs(nfc, ms, "sha256", e.sha256);
    TextIs(nfc, ms, "codec", e.codec);
    UnsignedIs(nfc, ms, "size_bytes", e.sizeBytes);
    MemberIs(nfc, ms, "sources", Sequence(Sources(e.sources)));
    SourcesShape(nfc, e.sources);
  }

  lemma SubtitlesShape(nfc: Nfc, es: seq<SubtitleEntry>)
    ensures IsSubtitles(nfc, Tree(nfc, Sequence(Subtitles(es))), es)
  {
    hide Tree, SubtitleMembers, Admissible, IsSubtitle;
    SubtitlesAdmissible(es);
    ItemsAre(nfc, Subtitles(es));
    forall i | 0 <= i < |es|
      ensures IsSubtitle(nfc, Tree(nfc, Subtitles(es)[i]), es[i])
    {
      SubtitleShape(nfc, es[i]);
    }
  }

  lemma ManifestNames(m: MediaManifest)
    ensures Names(ManifestMembers(m)) == ["manifest_version", "room_id", "media", "subtitles", "created_at", "host_signature"]
  {
    hide Media, Subtitles, SignatureValue;
  }

  lemma ManifestKeys(nfc: Nfc, m: MediaManifest)
    ensures HasKeys(Tree(nfc, Struct(ManifestMembers(m))),
                    {"created_at", "host_signature", "manifest_version", "media", "room_id", "subtitles"})
  {
    hide HasKeys, Tree, Readable, Names, ManifestMembers;
    ManifestReadable(m);
    ManifestNames(m);
    KeysAre(nfc, ManifestMembers(m), {"created_at", "host_signature", "manifest_version", "media", "room_id", "subtitles"});
  }

  lemma ManifestValues(nfc: Nfc, m: MediaManifest)
    ensures var n := Tree(nfc, Struct(ManifestMembers(m)));
            && At(n, "created_at") == Node.Number(NegInt(m.createdAt))
            && At(n, "manifest_version") == Node.Number(PosInt(m.manifestVersion))
            && IsMedia(nfc, At(n, "media"), m.media)
            && At(n, "room_id") == String(nfc(m.roomId))
            && IsSubtitles(nfc, At(n, "subtitles"), m.subtitles)
  {
    hide At, Tree, Readable, Media, Subtitles, SignatureValue, IsMedia, IsSubtitles;
    var ms := ManifestMembers(m);
    ManifestReadable(m);
    SignedIs(nfc, ms, "created_at", m.createdAt);
    UnsignedIs(nfc, ms, "manifest_version", m.manifestVersion);
    TextIs(nfc, ms, "room_id", m.roomId);
    MemberIs(nfc, ms, "media", Sequence(Media(m.media)));
    MemberIs(nfc, ms, "subtitles", Sequence(Subtitles(m.subtitles)));
    MediaShape(nfc, m.media);
    SubtitlesShape(nfc, m.subtitles);
  }

  lemma StrippedAt(n: Node, name: string)
    requires n.Object?
    ensures Strip(n).Object?
    ensures Lookup(Strip(n).fields, name) == if name == "host_signature" then Some(Null) else Lookup(n.fields, name)
  {
    hide Insert, Lookup;
    LookupInsert(n.fields, Field("host_signature", Null), name);
  }

  /** What is printed has exactly the shape of the manifest. */
  lemma TreeIsManifest(nfc: Nfc, m: MediaManifest)
    ensures IsManifest(nfc, Strip(Tree(nfc, Struct(ManifestMembers(m)))), m)
  {
    hide Lookup, Tree, Strip, ManifestMembers, IsMedia, IsSubtitles;
    var n := Tree(nfc, Struct(ManifestMembers(m)));
    ManifestKeys(nfc, m);
    ManifestValues(nfc, m);
    StrippedShape(n);
  }

  lemma StrippedShape(n: Node)
    requires n.Object?
    ensures Strip(n).Object? && At(Strip(n), "host_signature") == Null
    ensures forall name :: name != "host_signature" ==> At(Strip(n), name) == At(n, name)
    ensures forall name :: Lookup(Strip(n).fields, name).Some? <==> name == "host_signature" || Lookup(n.fields, name).Some?
  {
    hide Lookup, Insert;
    forall name
      ensures Lookup(Strip(n).fields, name) == if name == "host_signature" then Some(Null) else Lookup(n.fields, name)
    {
      StrippedAt(n, name);
    }
  }

  // ----- and no other sorted tree has -----

  lemma SortedUnder(n: Node, name: string)
    requires Sorted(n)
    ensures Sorted(At(n, name))
  {
    hide KeyLess;
    if n.Object? && Lookup(n.fields, name).Some? {
      LookupMembers(n.fields, name);
      var f := Field(name, Lookup(n.fields, name).value);
      assert f in n.fields;
    }
  }

  /** A sorted object is determined by its keys and what is under them. */
  lemma ObjectUnique(n: Node, o: Node, keys: set<string>)
    requires Sorted(n) && Sorted(o) && HasKeys(n, keys) && HasKeys(o, keys)
    requires forall key :: key in keys ==> At(n, key) == At(o, key)
    ensures n == o
  {
    hide KeyLess, Sorted, Lookup, Increasing;
    assert Increasing(n.fields) && Increasing(o.fields) by {
      SortedFields(n);
      SortedFields(o);
    }
    forall f
      ensures f in n.fields <==> f in o.fields
    {
      LookupMembers(n.fields, f.key);
      LookupMembers(o.fields, f.key);
      assert Lookup(n.fields, f.key).Some? ==> At(n, f.key) == Lookup(n.fields, f.key).value;
      assert Lookup(o.fields, f.key).Some? ==> At(o, f.key) == Lookup(o.fields, f.key).value;
      assert f == Field(f.key, f.value);
    }
    SortedUnique(n.fields, o.fields);
  }

  lemma SortedFields(n: Node)
    requires Sorted(n) && n.Object?
    ensures Increasing(n.fields)
  {}

  lemma TextsUnique(nfc: Nfc, n: Node, o: Node, ss: seq<string>)
    requires IsTexts(nfc, n, ss) && IsTexts(nfc, o, ss)
    ensures n == o
  {
    assert n.items == o.items;
  }

  lemma DimensionsUnique(n: Node, o: Node, d: Dimensions)
    requires Sorted(n) && Sorted(o) && IsDimensions(n, d) && IsDimensions(o, d)
    ensures n == o
  {
    hide At, HasKeys, Sorted;
    ObjectUnique(n, o, {"height", "width"});
  }

  lemma CodecsUnique(nfc: Nfc, n: Node, o: Node, c: Codecs)
    requires Sorted(n) && Sorted(o) && IsCodecs(nfc, n, c) && IsCodecs(nfc, o, c)
    ensures n == o
  {
    hide At, HasKeys, Sorted;
    ObjectUnique(n, o, Key("audio", c.audio.Some?) + Key("container", c.container.Some?) + Key("video", c.video.Some?));
  }

  lemma SourceUnique(nfc: Nfc, n: Node, o: Node, s: Source)
    requires Sorted(n) && Sorted(o) && IsSource(nfc, n, s) && IsSource(nfc, o, s)
    ensures n == o
  {
    hide At, HasKeys, Sorted, IsTexts;
    TextsUnique(nfc, At(n, "chunk_hashes"), At(o, "chunk_hashes"), s.chunkHashes);
    ObjectUnique(n, o, {"chunk_hashes", "chunk_size", "peer_id", "priority", "total_chunks", "url_hint"});
  }

  lemma SourcesUnique(nfc: Nfc, n: Node, o: Node, ss: seq<Source>)
    requires Sorted(n) && Sorted(o) && IsSources(nfc, n, ss) && IsSources(nfc, o, ss)
    ensures n == o
  {
    hide IsSource;
    forall i | 0 <= i < |ss|
      ensures n.items[i] == o.items[i]
    {
      SourceUnique(nfc, n.items[i], o.items[i], ss[i]);
    }
    assert n.items == o.items;
  }

  lemma EntryUnique(nfc: Nfc, n: Node, o: Node, e: MediaEntry)
    requires Sorted(n) && Sorted(o) && IsEntry(nfc, n, e) && IsEntry(nfc, o, e)
    ensures n == o
  {
    hide At, HasKeys, Sorted, IsSources, IsCodecs, IsDimensions;
    SortedUnder(n, "sources");
    SortedUnder(o, "sources");
    SourcesUnique(nfc, At(n, "sources"), At(o, "sources"), e.sources);
    if e.codecs.Some? {
      SortedUnder(n, "codecs");
      SortedUnder(o, "codecs");
      CodecsUnique(nfc, At(n, "codecs"), At(o, "codecs"), e.codecs.value);
    }
    if e.dimensions.Some? {
      SortedUnder(n, "dimensions");
      SortedUnder(o, "dimensions");
      DimensionsUnique(At(n, "dimensions"), At(o, "dimensions"), e.dimensions.value);
    }
    ObjectUnique(n, o, {"blake3", "duration_ms", "filename", "id", "mime", "sha256", "size_bytes", "sources"}
                       + Key("codecs", e.codecs.Some?) + Key("dimensions", e.dimensions.Some?));
  }

  lemma MediaUnique(nfc: Nfc, n: Node, o: Node, es: seq<MediaEntry>)
    requires Sorted(n) && Sorted(o) && IsMedia(nfc, n, es) && IsMedia(nfc, o, es)
    ensures n == o
  {
    hide IsEntry;
    forall i | 0 <= i < |es|
      ensures n.items[i] == o.items[i]
    {
      EntryUnique(nfc, n.items[i], o.items[i], es[i]);
    }
    assert n.items == o.items;
  }

  lemma SubtitleUnique(nfc: Nfc, n: Node, o: Node, e: SubtitleEntry)
    requires Sorted(n) && Sorted(o) && IsSubtitle(nfc, n, e) && IsSubtitle(nfc, o, e)
    ensures n == o
  {
    hide At, HasKeys, Sorted, IsSources;
    SortedUnder(n, "sources");
    SortedUnder(o, "sources");
    SourcesUnique(nfc, At(n, "sources"), At(o, "sources"), e.sources);
    ObjectUnique(n, o, {"codec", "filename", "id", "label", "language", "sha256", "size_bytes", "sources"});
  }

  lemma SubtitlesUnique(nfc: Nfc, n: Node, o: Node, es: seq<SubtitleEntry>)
    requires Sorted(n) && Sorted(o) && IsSubtitles(nfc, n, es) && IsSubtitles(nfc, o, es)
    ensures n == o
  {
    hide IsSubtitle;
    forall i | 0 <= i < |es|
      ensures n.items[i] == o.items[i]
    {
      SubtitleUnique(nfc, n.items[i], o.items[i], es[i]);
    }
    assert n.items == o.items;
  }

  lemma ManifestUnique(nfc: Nfc, n: Node, o: Node, m: MediaManifest)
    requires Sorted(n) && Sorted(o) && IsManifest(nfc, n, m) && IsManifest(nfc, o, m)
    ensures n == o
  {
    hide At, HasKeys, Sorted, IsMedia, IsSubtitles;
    SortedUnder(n, "media");
    SortedUnder(o, "media");
    MediaUnique(nfc, At(n, "media"), At(o, "media"), m.media);
    SortedUnder(n, "subtitles");
    SortedUnder(o, "subtitles");
    SubtitlesUnique(nfc, At(n, "subtitles"), At(o, "subtitles"), m.subtitles);
    ObjectUnique(n, o, {"created_at", "host_signature", "manifest_version", "media", "room_id", "subtitles"});
  }

  /** The canonical bytes are the text of the one sorted tree that has the shape of the
      manifest, and a newline. */
  lemma SerializeExactly(nfc: Nfc, m: MediaManifest, n: Node)
    requires Sorted(n) && IsManifest(nfc, n, m)
    ensures Serialize(nfc, m) == Ok(Utf8.Encode(JsonText.Print(n)) + [0x0A])
  {
    hide Serialize, Sorted, IsManifest, Utf8.Encode, JsonText.Print, ManifestMembers, Tree, Strip;
    SerializeSucceeds(nfc, m);
    TreeIsManifest(nfc, m);
    CanonicalIsSorted(nfc, m);
    ManifestUnique(nfc, n, Strip(Tree(nfc, Struct(ManifestMembers(m)))), m);
  }
}
