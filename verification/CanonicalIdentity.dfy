/** Two manifests have the same canonical bytes exactly if they have the same normal
    form (shared/manifest/src/canonical.rs:504-570). */
module CanonicalIdentity {
  import opened Wrappers
  import opened Canonical
  import opened CollectedTree
  import opened ManifestModel
  import opened CanonicalBytes
  import JsonText
  import JsonTree

  /** Collected alike, member by member. */
  predicate Alike(nfc: Nfc, ms: seq<Member>, ns: seq<Member>) {
    && |ms| == |ns|
    && forall i :: 0 <= i < |ms| ==> ms[i].name == ns[i].name && Collect(nfc, ms[i].value) == Collect(nfc, ns[i].value)
  }

  lemma AlikeStructs(nfc: Nfc, ms: seq<Member>, ns: seq<Member>)
    requires Alike(nfc, ms, ns)
    ensures Collect(nfc, Struct(ms)) == Collect(nfc, Struct(ns))
  {
    hide CollectMembers;
    MembersCongruent(nfc, ms, ns);
  }

  lemma AlikeConcat(nfc: Nfc, a: seq<Member>, b: seq<Member>, c: seq<Member>, d: seq<Member>)
    requires Alike(nfc, a, c) && Alike(nfc, b, d)
    ensures Alike(nfc, a + b, c + d)
  {
    hide Collect;
  }

  lemma AlikeSkippable(nfc: Nfc, name: string, v: Option<Value>, w: Option<Value>)
    requires v.Some? <==> w.Some?
    requires v.Some? ==> Collect(nfc, v.value) == Collect(nfc, w.value)
    ensures Alike(nfc, Skippable(name, v), Skippable(name, w))
  {}

  lemma AlikeSequences(nfc: Nfc, vs: seq<Value>, ws: seq<Value>)
    requires |vs| == |ws| && forall i :: 0 <= i < |vs| ==> Collect(nfc, vs[i]) == Collect(nfc, ws[i])
    ensures Collect(nfc, Sequence(vs)) == Collect(nfc, Sequence(ws))
  {
    hide CollectItems;
    ItemsCongruent(nfc, vs, ws);
  }

  lemma TextsAlike(nfc: Nfc, ss: seq<string>, ts: seq<string>)
    requires NormalTexts(nfc, ss) == NormalTexts(nfc, ts)
    ensures Collect(nfc, Sequence(Texts(ss))) == Collect(nfc, Sequence(Texts(ts)))
  {
    assert |NormalTexts(nfc, ss)| == |ss| && |NormalTexts(nfc, ts)| == |ts|;
    forall i | 0 <= i < |ss|
      ensures Collect(nfc, Texts(ss)[i]) == Collect(nfc, Texts(ts)[i])
    {
      assert NormalTexts(nfc, ss)[i] == nfc(ss[i]) && NormalTexts(nfc, ts)[i] == nfc(ts[i]);
    }
    AlikeSequences(nfc, Texts(ss), Texts(ts));
  }

  lemma SourceAlike(nfc: Nfc, s: Source, t: Source)
    requires NormalSource(nfc, s) == NormalSource(nfc, t)
    ensures Collect(nfc, Struct(SourceMembers(s))) == Collect(nfc, Struct(SourceMembers(t)))
  {
    hide NormalTexts, Texts;
    TextsAlike(nfc, s.chunkHashes, t.chunkHashes);
    HintAlike(nfc, s.urlHint, t.urlHint);
    hide NormalOption, CollectItems;
    assert Alike(nfc, SourceMembers(s), SourceMembers(t));
    hide Alike, SourceMembers, Collect;
    AlikeStructs(nfc, SourceMembers(s), SourceMembers(t));
  }

  lemma HintAlike(nfc: Nfc, s: Option<string>, t: Option<string>)
    requires NormalOption(nfc, s) == NormalOption(nfc, t)
    ensures Collect(nfc, match s case None => Absent case Some(x) => Present(Text(x)))
            == Collect(nfc, match t case None => Absent case Some(x) => Present(Text(x)))
  {}

  lemma SourcesAlike(nfc: Nfc, ss: seq<Source>, ts: seq<Source>)
    requires NormalSources(nfc, ss) == NormalSources(nfc, ts)
    ensures Collect(nfc, Sequence(Sources(ss))) == Collect(nfc, Sequence(Sources(ts)))
  {
    hide Collect, NormalSource, SourceMembers;
    assert |NormalSources(nfc, ss)| == |ss| && |NormalSources(nfc, ts)| == |ts|;
    forall i | 0 <= i < |ss|
      ensures Collect(nfc, Sources(ss)[i]) == Collect(nfc, Sources(ts)[i])
    {
      assert NormalSources(nfc, ss)[i] == NormalSource(nfc, ss[i]) && NormalSources(nfc, ts)[i] == NormalSource(nfc, ts[i]);
      SourceAlike(nfc, ss[i], ts[i]);
    }
    AlikeSequences(nfc, Sources(ss), Sources(ts));
  }

  lemma CodecsAlike(nfc: Nfc, c: Option<Codecs>, d: Option<Codecs>)
    requires NormalCodecs(nfc, c) == NormalCodecs(nfc, d)
    ensures Alike(nfc, Skippable("codecs", OptionCodecs(c)), Skippable("codecs", OptionCodecs(d)))
  {
    if c.Some? {
      var ms, ns := CodecsMembers(c.value), CodecsMembers(d.value);
      SkippedTextAlike(nfc, "video", c.value.video, d.value.video);
      SkippedTextAlike(nfc, "audio", c.value.audio, d.value.audio);
      SkippedTextAlike(nfc, "container", c.value.container, d.value.container);
      CodecsPartsAlike(nfc, c.value, d.value);
      hide Alike, CodecsMembers, Collect;
      AlikeStructs(nfc, ms, ns);
      AlikeSkippable(nfc, "codecs", OptionCodecs(c), OptionCodecs(d));
    } else {
      AlikeSkippable(nfc, "codecs", OptionCodecs(c), OptionCodecs(d));
    }
  }

  lemma CodecsPartsAlike(nfc: Nfc, c: Codecs, d: Codecs)
    requires Alike(nfc, Skippable("video", OptionText(c.video)), Skippable("video", OptionText(d.video)))
    requires Alike(nfc, Skippable("audio", OptionText(c.audio)), Skippable("audio", OptionText(d.audio)))
    requires Alike(nfc, Skippable("container", OptionText(c.container)), Skippable("container", OptionText(d.container)))
    ensures Alike(nfc, CodecsMembers(c), CodecsMembers(d))
  {
    hide Alike, Skippable, OptionText;
    var v, w := Skippable("video", OptionText(c.video)), Skippable("video", OptionText(d.video));
    var a, b := Skippable("audio", OptionText(c.audio)), Skippable("audio", OptionText(d.audio));
    AlikeConcat(nfc, v, a, w, b);
    AlikeConcat(nfc, v + a, Skippable("container", OptionText(c.container)),
      w + b, Skippable("container", OptionText(d.container)));
  }

  lemma SkippedTextAlike(nfc: Nfc, name: string, s: Option<string>, t: Option<string>)
    requires NormalOption(nfc, s) == NormalOption(nfc, t)
    ensures Alike(nfc, Skippable(name, OptionText(s)), Skippable(name, OptionText(t)))
  {}

  lemma EntryAlike(nfc: Nfc, e: MediaEntry, f: MediaEntry)
    requires NormalEntry(nfc, e) == NormalEntry(nfc, f)
    ensures Collect(nfc, Struct(MediaMembers(e))) == Collect(nfc, Struct(MediaMembers(f)))
  {
    hide Alike, Skippable, OptionDimensions, OptionCodecs, Sources, NormalCodecs, NormalSources, Collect;
    EntryFirstAlike(nfc, e, f);
    AlikeSame(nfc, Skippable("dimensions", OptionDimensions(e.dimensions)));
    CodecsAlike(nfc, e.codecs, f.codecs);
    SourcesMemberAlike(nfc, e.sources, f.sources);
    var a, c := MediaMembers(e)[..7], MediaMembers(f)[..7];
    var d := Skippable("dimensions", OptionDimensions(e.dimensions));
    AlikeConcat(nfc, a, d, c, d);
    AlikeConcat(nfc, a + d, Skippable("codecs", OptionCodecs(e.codecs)), c + d, Skippable("codecs", OptionCodecs(f.codecs)));
    AlikeConcat(nfc, a + d + Skippable("codecs", OptionCodecs(e.codecs)), [Member("sources", Sequence(Sources(e.sources)))],
      c + d + Skippable("codecs", OptionCodecs(f.codecs)), [Member("sources", Sequence(Sources(f.sources)))]);
    assert e.dimensions == f.dimensions;
    assert MediaMembers(e) == a + d + Skippable("codecs", OptionCodecs(e.codecs)) + [Member("sources", Sequence(Sources(e.sources)))];
    assert MediaMembers(f) == c + d + Skippable("codecs", OptionCodecs(f.codecs)) + [Member("sources", Sequence(Sources(f.sources)))];
    hide MediaMembers;
    AlikeStructs(nfc, MediaMembers(e), MediaMembers(f));
  }

  lemma AlikeSame(nfc: Nfc, ms: seq<Member>)
    ensures Alike(nfc, ms, ms)
  {}

  lemma SourcesMemberAlike(nfc: Nfc, ss: seq<Source>, ts: seq<Source>)
    requires NormalSources(nfc, ss) == NormalSources(nfc, ts)
    ensures Alike(nfc, [Member("sources", Sequence(Sources(ss)))], [Member("sources", Sequence(Sources(ts)))])
  {
    hide Collect, Sources, NormalSources;
    SourcesAlike(nfc, ss, ts);
  }

  lemma EntryFirstAlike(nfc: Nfc, e: MediaEntry, f: MediaEntry)
    requires NormalEntry(nfc, e) == NormalEntry(nfc, f)
    ensures Alike(nfc, MediaMembers(e)[..7], MediaMembers(f)[..7])
  {
    hide Skippable, OptionDimensions, OptionCodecs, Sources, NormalCodecs, NormalSources;
  }

  lemma SubtitleAlike(nfc: Nfc, e: SubtitleEntry, f: SubtitleEntry)
    requires NormalSubtitle(nfc, e) == NormalSubtitle(nfc, f)
    ensures Collect(nfc, Struct(SubtitleMembers(e))) == Collect(nfc, Struct(SubtitleMembers(f)))
  {
    hide Sources, NormalSources, CollectItems;
    SourcesAlike(nfc, e.sources, f.sources);
    assert Alike(nfc, SubtitleMembers(e), SubtitleMembers(f));
    hide Alike, SubtitleMembers, Collect;
    AlikeStructs(nfc, SubtitleMembers(e), SubtitleMembers(f));
  }

  lemma MediaAlike(nfc: Nfc, es: seq<MediaEntry>, fs: seq<MediaEntry>)
    requires |es| == |fs| && forall i :: 0 <= i < |es| ==> NormalEntry(nfc, es[i]) == NormalEntry(nfc, fs[i])
    ensures Collect(nfc, Sequence(Media(es))) == Collect(nfc, Sequence(Media(fs)))
  {
    hide Collect, NormalEntry, MediaMembers;
    forall i | 0 <= i < |es|
      ensures Collect(nfc, Media(es)[i]) == Collect(nfc, Media(fs)[i])
    {
      EntryAlike(nfc, es[i], fs[i]);
    }
    AlikeSequences(nfc, Media(es), Media(fs));
  }

  lemma SubtitlesAlike(nfc: Nfc, es: seq<SubtitleEntry>, fs: seq<SubtitleEntry>)
    requires |es| == |fs| && forall i :: 0 <= i < |es| ==> NormalSubtitle(nfc, es[i]) == NormalSubtitle(nfc, fs[i])
    ensures Collect(nfc, Sequence(Subtitles(es))) == Collect(nfc, Sequence(Subtitles(fs)))
  {
    hide Collect, NormalSubtitle, SubtitleMembers;
    forall i | 0 <= i < |es|
      ensures Collect(nfc, Subtitles(es)[i]) == Collect(nfc, Subtitles(fs)[i])
    {
      SubtitleAlike(nfc, es[i], fs[i]);
    }
    AlikeSequences(nfc, Subtitles(es), Subtitles(fs));
  }

  /** A manifest with its signature block taken off. */
  function WithoutBlock(m: MediaManifest): MediaManifest {
    m.(hostSignature := None)
  }

  lemma ListsAlike(nfc: Nfc, m: MediaManifest, k: MediaManifest)
    requires Normalize(nfc, m) == Normalize(nfc, k)
    ensures Collect(nfc, Sequence(Media(m.media))) == Collect(nfc, Sequence(Media(k.media)))
    ensures Collect(nfc, Sequence(Subtitles(m.subtitles))) == Collect(nfc, Sequence(Subtitles(k.subtitles)))
  {
    hide Collect, NormalEntry, NormalSubtitle, Media, Subtitles;
    var a, b := Normalize(nfc, m), Normalize(nfc, k);
    assert |a.media| == |m.media| && |b.media| == |k.media| && |a.subtitles| == |m.subtitles| && |b.subtitles| == |k.subtitles|;
    forall i | 0 <= i < |m.media|
      ensures NormalEntry(nfc, m.media[i]) == NormalEntry(nfc, k.media[i])
    {
      assert a.media[i] == NormalEntry(nfc, m.media[i]) && b.media[i] == NormalEntry(nfc, k.media[i]);
    }
    forall i | 0 <= i < |m.subtitles|
      ensures NormalSubtitle(nfc, m.subtitles[i]) == NormalSubtitle(nfc, k.subtitles[i])
    {
      assert a.subtitles[i] == NormalSubtitle(nfc, m.subtitles[i]) && b.subtitles[i] == NormalSubtitle(nfc, k.subtitles[i]);
    }
    MediaAlike(nfc, m.media, k.media);
    SubtitlesAlike(nfc, m.subtitles, k.subtitles);
  }

  lemma UnsignedAlike(nfc: Nfc, m: MediaManifest, k: MediaManifest)
    requires Normalize(nfc, m) == Normalize(nfc, k)
    ensures Collect(nfc, Struct(ManifestMembers(WithoutBlock(m)))) == Collect(nfc, Struct(ManifestMembers(WithoutBlock(k))))
  {
    ListsAlike(nfc, m, k);
    assert m.manifestVersion == k.manifestVersion && nfc(m.roomId) == nfc(k.roomId) && m.createdAt == k.createdAt;
    hide Normalize, Media, Subtitles, CollectItems;
    assert Alike(nfc, ManifestMembers(WithoutBlock(m)), ManifestMembers(WithoutBlock(k)));
    hide Alike, ManifestMembers, Collect;
    AlikeStructs(nfc, ManifestMembers(WithoutBlock(m)), ManifestMembers(WithoutBlock(k)));
  }

  // ----- the signature block plays no part -----

  lemma SignatureStripped(nfc: Nfc, m: MediaManifest)
    ensures Strip(Tree(nfc, Struct(ManifestMembers(m)))) == Strip(Tree(nfc, Struct(ManifestMembers(WithoutBlock(m)))))
  {
    hide ManifestMembers, Collect, Strip;
    StrippedIs(nfc, m);
    StrippedIs(nfc, WithoutBlock(m));
    FirstMembers(m);
  }

  lemma FirstMembers(m: MediaManifest)
    ensures |ManifestMembers(m)| == 6 && |ManifestMembers(WithoutBlock(m))| == 6
    ensures ManifestMembers(m)[..5] == ManifestMembers(WithoutBlock(m))[..5]
  {
    hide Media, Subtitles;
  }

  lemma StrippedIs(nfc: Nfc, m: MediaManifest)
    ensures |ManifestMembers(m)| == 6 && CollectMembers(nfc, ManifestMembers(m)[..5]).Ok?
    ensures Strip(Tree(nfc, Struct(ManifestMembers(m))))
            == JsonTree.Object(JsonTree.Insert(CollectMembers(nfc, ManifestMembers(m)[..5]).value, JsonTree.Field("host_signature", JsonTree.Null)))
  {
    hide Media, Subtitles, SignatureValue, JsonTree.Insert, Admissible;
    ManifestAdmissible(m);
    CollectFails(nfc, Struct(ManifestMembers(m)));
    var ms := ManifestMembers(m);
    assert ms[5].name == "host_signature";
    hide ManifestMembers;
    assert CollectMembers(nfc, ms).Ok?;
    InsertTwice(CollectMembers(nfc, ms[..5]).value, "host_signature", Collect(nfc, ms[5].value).value, JsonTree.Null);
  }

  /** Same bytes exactly if same normal form: no two different manifests collide, and
      nothing that normalisation or signing changes is seen. */
  lemma SameBytes(nfc: Nfc, m: MediaManifest, k: MediaManifest)
    ensures Serialize(nfc, m) == Serialize(nfc, k) <==> Normalize(nfc, m) == Normalize(nfc, k)
  {
    hide Serialize, Normalize, Collect, ManifestMembers, Strip, JsonText.Print, Recover, WithoutBlock;
    RecoverSerialize(nfc, m);
    RecoverSerialize(nfc, k);
    if Normalize(nfc, m) == Normalize(nfc, k) {
      SerializeSucceeds(nfc, m);
      SerializeSucceeds(nfc, k);
      SignatureStripped(nfc, m);
      SignatureStripped(nfc, k);
      UnsignedAlike(nfc, m, k);
    }
  }

  ghost predicate Idempotent(nfc: Nfc) {
    forall s :: nfc(nfc(s)) == nfc(s)
  }

  /** With an idempotent normalisation, a manifest and its normal form share their bytes. */
  lemma NormalFormSerializesAlike(nfc: Nfc, m: MediaManifest)
    requires Idempotent(nfc)
    ensures Serialize(nfc, Normalize(nfc, m)) == Serialize(nfc, m)
  {
    hide Serialize;
    NormalizeTwice(nfc, m);
    SameBytes(nfc, Normalize(nfc, m), m);
  }

  lemma NormalizeTwice(nfc: Nfc, m: MediaManifest)
    requires Idempotent(nfc)
    ensures Normalize(nfc, Normalize(nfc, m)) == Normalize(nfc, m)
  {
    hide NormalEntry, NormalSubtitle;
    var n := Normalize(nfc, m);
    forall i | 0 <= i < |m.media|
      ensures NormalEntry(nfc, n.media[i]) == n.media[i]
    {
      EntryTwice(nfc, m.media[i]);
    }
    forall i | 0 <= i < |m.subtitles|
      ensures NormalSubtitle(nfc, n.subtitles[i]) == n.subtitles[i]
    {
      SubtitleTwice(nfc, m.subtitles[i]);
    }
  }

  lemma SourceTwice(nfc: Nfc, s: Source)
    requires Idempotent(nfc)
    ensures NormalSource(nfc, NormalSource(nfc, s)) == NormalSource(nfc, s)
  {
    assert NormalTexts(nfc, NormalTexts(nfc, s.chunkHashes)) == NormalTexts(nfc, s.chunkHashes);
  }

  lemma SourcesTwice(nfc: Nfc, ss: seq<Source>)
    requires Idempotent(nfc)
    ensures NormalSources(nfc, NormalSources(nfc, ss)) == NormalSources(nfc, ss)
  {
    hide NormalSource;
    forall i | 0 <= i < |ss|
      ensures NormalSource(nfc, NormalSource(nfc, ss[i])) == NormalSource(nfc, ss[i])
    {
      SourceTwice(nfc, ss[i]);
    }
  }

  lemma EntryTwice(nfc: Nfc, e: MediaEntry)
    requires Idempotent(nfc)
    ensures NormalEntry(nfc, NormalEntry(nfc, e)) == NormalEntry(nfc, e)
  {
    hide NormalSources;
    SourcesTwice(nfc, e.sources);
  }

  lemma SubtitleTwice(nfc: Nfc, e: SubtitleEntry)
    requires Idempotent(nfc)
    ensures NormalSubtitle(nfc, NormalSubtitle(nfc, e)) == NormalSubtitle(nfc, e)
  {
    hide NormalSources;
    SourcesTwice(nfc, e.sources);
  }
}
