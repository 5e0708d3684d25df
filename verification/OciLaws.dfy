/** What normalisation does to the documents themselves, field by field. */
module OciLaws {
  import opened Common
  import opened OciLayout

  // ----------------------------------------------------------------- media types

  /** A media type before and after: one of three docker types has become the OCI
      type of the same content, and any other is as it was. */
  predicate SameContentType(before: Option<string>, after: Option<string>) {
    if before == Some("application/vnd.docker.container.image.v1+json") then
      after == Some("application/vnd.oci.image.config.v1+json")
    else if before == Some("application/vnd.docker.image.rootfs.diff.tar.gzip") then
      after == Some("application/vnd.oci.image.layer.v1.tar+gzip")
    else if before == Some("application/vnd.docker.image.rootfs.diff.tar") then
      after == Some("application/vnd.oci.image.layer.v1.tar")
    else after == before
  }

  /** Nothing but the media type may have changed. */
  predicate SameContent(before: Descriptor, after: Descriptor) {
    after.digest == before.digest && after.size == before.size && after.platform == before.platform &&
    after.rest == before.rest && SameContentType(before.mediaType, after.mediaType)
  }

  /** The same image: the same config and the same layers in the same order. */
  ghost predicate SameImage(before: Manifest, after: Manifest) {
    |after.layers| == |before.layers| && after.rest == before.rest &&
    (forall k :: 0 <= k < |before.layers| ==> SameContent(before.layers[k], after.layers[k])) &&
    match before.config
    case NoConfig => after.config == NoConfig
    case NullConfig => after.config == NullConfig
    case ConfigDescriptor(d) => after.config.ConfigDescriptor? && SameContent(d, after.config.desc)
  }

  /** Some descriptor of the manifest has one of the three docker types. */
  ghost predicate MentionsDocker(m: Manifest) {
    (m.config.ConfigDescriptor? && !SameContentType(m.config.desc.mediaType, m.config.desc.mediaType)) ||
    exists k :: 0 <= k < |m.layers| && !SameContentType(m.layers[k].mediaType, m.layers[k].mediaType)
  }

  lemma MappedIsSameContent(d: Descriptor)
    ensures SameContent(d, Mapped(d)) && (IsMapped(d) <==> !SameContentType(d.mediaType, d.mediaType))
  {
  }

  lemma RewrittenIsSameImage(m: Manifest)
    ensures SameImage(m, Rewritten(m)) && (HasDockerTypes(m) <==> MentionsDocker(m))
  {
    hide Mapped, IsMapped, SameContent, SameContentType;
    forall k | 0 <= k < |m.layers|
      ensures SameContent(m.layers[k], Rewritten(m).layers[k])
      ensures IsMapped(m.layers[k]) <==> !SameContentType(m.layers[k].mediaType, m.layers[k].mediaType)
    {
      MappedIsSameContent(m.layers[k]);
    }
    if m.config.ConfigDescriptor? {
      MappedIsSameContent(m.config.desc);
    }
  }

  /** An index entry that no docker type makes worth rewriting is as it was.
      Otherwise it names a stored document by digest and by length, has kept what
      else it says, and no longer calls itself a docker document. */
  ghost predicate SameEntry(before: Descriptor, after: Descriptor, m: Manifest, stored: Blob) {
    if !MentionsDocker(m) then after == before
    else
      after.digest == Some(Sha256(stored)) && after.size == Some(LengthOf(stored)) &&
      after.platform == before.platform && after.rest == before.rest &&
      after.mediaType ==
      if before.mediaType.Some? && |before.mediaType.value| >= 23 &&
         before.mediaType.value[..23] == "application/vnd.docker."
      then Some("application/vnd.oci.image.manifest.v1+json") else before.mediaType
  }

  /** After a completed pass every entry names the image it named before. */
  lemma EveryEntryKeepsItsImage(l: LayoutState, i: nat)
    requires StoreOk(l.blobs) && l.index.Some? && l.index.value.Index?
    requires NormalizeAll(l.index.value.manifests, l.blobs).Completed? && i < |l.index.value.manifests|
    ensures var l', before := Normalize(l), l.index.value.manifests[i];
            l'.index.Some? && l'.index.value.Index? && |l'.index.value.manifests| == |l.index.value.manifests| &&
            var after := l'.index.value.manifests[i];
            before.digest.Some? && before.digest.value in l'.blobs &&
            (before.digest.value in l.blobs ==> l'.blobs[before.digest.value] == l.blobs[before.digest.value]) &&
            after.digest.Some? && after.digest.value in l'.blobs &&
            var old_, new_ := AsManifest(l'.blobs[before.digest.value]), AsManifest(l'.blobs[after.digest.value]);
            old_.Some? && new_.Some? && SameImage(old_.value, new_.value) &&
            SameEntry(before, after, old_.value, l'.blobs[after.digest.value])
  {
    var descs := l.index.value.manifests;
    EveryEntryNormalized(descs, l.blobs);
    StoreStaysOk(descs, l.blobs);
    var p := NormalizeAll(descs, l.blobs);
    if !p.changed {
      UnchangedWritesNothing(descs, l.blobs);
    }
    assert Normalized(descs[i], p.manifests[i], p.blobs);
    var m := AsManifest(p.blobs[descs[i].digest.value]).value;
    RewrittenIsSameImage(m);
    hide SameImage, MentionsDocker, HasDockerTypes, Rewritten, NormalizeAll;
    UnchangedIsSameImage(m);
  }

  lemma UnchangedIsSameImage(m: Manifest)
    ensures !MentionsDocker(m) ==> SameImage(m, m)
  {
  }
  // ------------------------------------------------------------ when it completes

  /** A stored document that is JSON and whose config, if it has one, is not null. */
  predicate IsDocument(b: Blob) {
    match b
    case ManifestBlob(m, _) => m.config != NullConfig
    case ConfigBlob(_, _) => true
    case NotJson(_) => false
  }

  /** The pass gets to the end exactly when every entry names such a document, as
      stored in the end. */
  lemma {:induction false} CompletesIff(descs: seq<Descriptor>, blobs: Store)
    requires StoreOk(blobs)
    ensures var p := NormalizeAll(descs, blobs);
            p.Completed? <==> forall i :: 0 <= i < |descs| ==>
                                descs[i].digest.Some? && descs[i].digest.value in p.blobs &&
                                IsDocument(p.blobs[descs[i].digest.value])
  {
    if descs != [] {
      var p := NormalizeAll(descs, blobs);
      StoreStaysOk(descs, blobs);
      if Visit(descs[0], blobs).Failed? {
        assert p.blobs == blobs;
      } else {
        var next := AfterVisit(descs[0], blobs);
        StoreStaysOk(descs[1..], next);
        CompletesIff(descs[1..], next);
        assert forall i :: 0 < i < |descs| ==> descs[i] == descs[1..][i - 1];
        assert forall i :: 0 <= i < |descs[1..]| ==> descs[1..][i] == descs[i + 1];
      }
    }
  }

  // ------------------------------------------------------------------- the reader

  predicate OnAmd64(d: Descriptor) {
    d.platform == Some(Platform("linux", "amd64")) || d.platform == Some(Platform("linux", "x86_64"))
  }

  /** The entry the reader turns to: the first for linux on amd64 or, without any,
      the first. */
  predicate IsChosen(descs: seq<Descriptor>, i: nat)
    requires i < |descs|
  {
    if OnAmd64(descs[i]) then forall k :: 0 <= k < i ==> !OnAmd64(descs[k])
    else i == 0 && forall k :: 0 <= k < |descs| ==> !OnAmd64(descs[k])
  }

  /** The blob that a digest names. */
  predicate Names(digest: Option<Digest>, blobs: Store, b: Blob) {
    digest.Some? && !digest.value.Unparsable? && digest.value in blobs && blobs[digest.value] == b
  }

  lemma ChosenIff(descs: seq<Descriptor>, i: nat)
    requires i < |descs|
    ensures IsChosen(descs, i) <==> i == Selected(descs)
  {
    assert forall k :: 0 <= k < |descs| ==> (IsLinuxAmd64(descs[k]) <==> OnAmd64(descs[k]));
    hide IsLinuxAmd64, OnAmd64;
  }

  /** What a document says when it is read as a config: a manifest says nothing, and
      everything is left at its default. */
  predicate Says(b: Blob, c: ImageConfig) {
    match b
    case ConfigBlob(config, _) => c == config
    case ManifestBlob(m, _) => m.config != NullConfig && c == ImageConfig([], [], map[], [], "/app")
    case NotJson(_) => false
  }

  /** The entry names a manifest whose config names a document that says so. */
  ghost predicate HasConfig(desc: Descriptor, blobs: Store, c: ImageConfig) {
    exists b, config ::
      Names(desc.digest, blobs, b) && b.ManifestBlob? && b.manifest.config.ConfigDescriptor? &&
      Names(b.manifest.config.desc.digest, blobs, config) && Says(config, c)
  }

  /** The reader finds a config exactly when the chosen entry has it. */
  lemma FindsConfigIff(l: LayoutState, c: ImageConfig)
    ensures ExtractConfig(l) == Ok(c) <==>
            l.index.Some? && l.index.value.Index? &&
            exists i :: 0 <= i < |l.index.value.manifests| && IsChosen(l.index.value.manifests, i) &&
                        HasConfig(l.index.value.manifests[i], l.blobs, c)
  {
    if l.index.Some? && l.index.value.Index? && l.index.value.manifests != [] {
      var descs := l.index.value.manifests;
      forall k | 0 <= k < |descs|
        ensures IsChosen(descs, k) <==> k == Selected(descs)
      {
        ChosenIff(descs, k);
      }
      EntryConfigIff(descs[Selected(descs)], l.blobs, c);
      hide IsChosen, Selected, HasConfig, ReadEntry;
    }
  }

  lemma EntryConfigIff(desc: Descriptor, blobs: Store, c: ImageConfig)
    ensures ReadEntry(blobs, desc) == Ok(c) <==> HasConfig(desc, blobs, c)
  {
    if ReadEntry(blobs, desc) == Ok(c) {
      var b := blobs[desc.digest.value];
      assert Names(desc.digest, blobs, b);
      assert b.ManifestBlob? && b.manifest.config.ConfigDescriptor?;
      var config := blobs[b.manifest.config.desc.digest.value];
      assert Names(b.manifest.config.desc.digest, blobs, config) && Says(config, c);
    }
  }
}
