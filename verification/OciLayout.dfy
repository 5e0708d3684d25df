/** OCI image layouts: an index, a content-addressed store of blobs, the pass
    that rewrites leftover docker media types, and the reader of the image config.

    Hashing and JSON are symbolic: a digest is the content it names, a length is
    the content it measures, and a document may be stored in many spellings of
    which the serializer produces one. */
module OciLayout {
  import opened Common

  datatype Digest = Sha256(content: Blob) | OtherDigest(algo: string, hex: string) | Unparsable(text: string)

  datatype Size = LengthOf(blob: Blob) | Bytes(n: nat)

  datatype Platform = Platform(os: string, architecture: string)

  datatype Descriptor = Descriptor(mediaType: Option<string>, digest: Option<Digest>, size: Option<Size>,
                                   platform: Option<Platform>, rest: nat)

  datatype ConfigField = NoConfig | NullConfig | ConfigDescriptor(desc: Descriptor)

  datatype Manifest = Manifest(config: ConfigField, layers: seq<Descriptor>, rest: nat)

  datatype ImageConfig = ImageConfig(entrypoint: seq<string>, cmd: seq<string>, env: map<string, string>,
                                     ports: seq<int>, workingDir: string)

  const DEFAULT_CONFIG := ImageConfig([], [], map[], [], "/app")

  /** What a stored file says; `spelling` 0 is the serializer's own. */
  datatype Blob =
    | ManifestBlob(manifest: Manifest, spelling: nat)
    | ConfigBlob(config: ImageConfig, spelling: nat)
    | NotJson(bytes: seq<int>)

  datatype Index = BadIndex | Index(manifests: seq<Descriptor>)

  type Store = map<Digest, Blob>

  datatype LayoutState = LayoutState(index: Option<Index>, blobs: Store)

  /** Every file named by a digest we can recompute has that digest. */
  ghost predicate StoreOk(blobs: Store) {
    (forall d :: d in blobs && d.Sha256? ==> blobs[d] == d.content) && forall d :: d in blobs ==> !d.Unparsable?
  }

  function Serialize(m: Manifest): Blob {
    ManifestBlob(m, 0)
  }

  /** A blob read as a manifest. An image config is also a JSON object, with a
      "config" that is no descriptor and no layers. */
  function AsManifest(b: Blob): Option<Manifest> {
    match b
    case ManifestBlob(m, _) => Some(m)
    case ConfigBlob(_, _) => Some(Manifest(ConfigDescriptor(Descriptor(None, None, None, None, 0)), [], 0))
    case NotJson(_) => None
  }

  /** A blob read as an image config; a manifest has none of its fields. */
  function AsConfig(b: Blob): Option<ImageConfig> {
    match b
    case ManifestBlob(m, _) => if m.config.NullConfig? then None else Some(DEFAULT_CONFIG)
    case ConfigBlob(c, _) => Some(c)
    case NotJson(_) => None
  }

  // ------------------------------------------------------------- media types

  const DOCKER_TO_OCI: map<string, string> := map[
    "application/vnd.docker.container.image.v1+json" := "application/vnd.oci.image.config.v1+json",
    "application/vnd.docker.image.rootfs.diff.tar.gzip" := "application/vnd.oci.image.layer.v1.tar+gzip",
    "application/vnd.docker.image.rootfs.diff.tar" := "application/vnd.oci.image.layer.v1.tar"
  ]

  const OCI_MANIFEST := "application/vnd.oci.image.manifest.v1+json"

  predicate IsMapped(d: Descriptor) {
    d.mediaType.Some? && d.mediaType.value in DOCKER_TO_OCI
  }

  function Mapped(d: Descriptor): Descriptor {
    if IsMapped(d) then d.(mediaType := Some(DOCKER_TO_OCI[d.mediaType.value])) else d
  }

  function MappedLayers(layers: seq<Descriptor>): (r: seq<Descriptor>)
    ensures |r| == |layers| && forall i :: 0 <= i < |r| ==> r[i] == Mapped(layers[i])
  {
    if layers == [] then [] else [Mapped(layers[0])] + MappedLayers(layers[1..])
  }

  function Rewritten(m: Manifest): Manifest {
    Manifest(if m.config.ConfigDescriptor? then ConfigDescriptor(Mapped(m.config.desc)) else m.config,
             MappedLayers(m.layers), m.rest)
  }

  /** Does anything in the manifest still carry a docker type? */
  predicate HasDockerTypes(m: Manifest) {
    (m.config.ConfigDescriptor? && IsMapped(m.config.desc)) || exists i :: 0 <= i < |m.layers| && IsMapped(m.layers[i])
  }

  // ------------------------------------------------------------ normalisation

  datatype One = Failed | Kept | Replaced(digest: Digest, content: Blob)

  /** What the pass does with one index entry. */
  function Visit(desc: Descriptor, blobs: Store): One {
    if desc.digest.None? || desc.digest.value !in blobs then Failed
    else
      match AsManifest(blobs[desc.digest.value])
      case None => Failed
      case Some(m) =>
        if m.config.NullConfig? then Failed
        else if !HasDockerTypes(m) then Kept
        else Replaced(Sha256(Serialize(Rewritten(m))), Serialize(Rewritten(m)))
  }

  function Redirected(desc: Descriptor, digest: Digest, content: Blob): Descriptor {
    var d := desc.(digest := Some(digest), size := Some(LengthOf(content)));
    if d.mediaType.Some? && "application/vnd.docker." <= d.mediaType.value
    then d.(mediaType := Some(OCI_MANIFEST)) else d
  }

  function Stored(blobs: Store, digest: Digest, content: Blob): Store {
    if digest in blobs then blobs else blobs[digest := content]
  }

  datatype Pass = Aborted(blobs: Store) | Completed(manifests: seq<Descriptor>, blobs: Store, changed: bool)

  function NormalizeAll(descs: seq<Descriptor>, blobs: Store): Pass {
    if descs == [] then Completed([], blobs, false)
    else
      match Visit(descs[0], blobs)
      case Failed => Aborted(blobs)
      case Kept =>
        (match NormalizeAll(descs[1..], blobs)
         case Aborted(b) => Aborted(b)
         case Completed(ds, b, changed) => Completed([descs[0]] + ds, b, changed))
      case Replaced(digest, content) =>
        match NormalizeAll(descs[1..], Stored(blobs, digest, content))
        case Aborted(b) => Aborted(b)
        case Completed(ds, b, _) => Completed([Redirected(descs[0], digest, content)] + ds, b, true)
  }

  /** The layout after the pass. Whatever goes wrong on the way is swallowed. */
  function Normalize(l: LayoutState): LayoutState {
    if l.index.None? || l.index.value.BadIndex? then l
    else
      match NormalizeAll(l.index.value.manifests, l.blobs)
      case Aborted(b) => l.(blobs := b)
      case Completed(ds, b, changed) => if changed then LayoutState(Some(Index(ds)), b) else l
  }

  // ---------------------------------------------------------------- the reader

  datatype ReadError =
    | NoIndex | UnreadableIndex | NoManifests | NoDigest | BadDigest(text: string)
    | MissingBlob(digest: Digest) | UnreadableBlob(digest: Digest) | NoConfigDigest

  predicate IsLinuxAmd64(d: Descriptor) {
    d.platform.Some? && d.platform.value.os == "linux" && d.platform.value.architecture in {"amd64", "x86_64"}
  }

  function Selected(descs: seq<Descriptor>): (i: nat)
    requires descs != []
    ensures i < |descs|
    ensures (exists j :: 0 <= j < |descs| && IsLinuxAmd64(descs[j])) ==>
              IsLinuxAmd64(descs[i]) && forall j :: 0 <= j < i ==> !IsLinuxAmd64(descs[j])
    ensures (forall j :: 0 <= j < |descs| ==> !IsLinuxAmd64(descs[j])) ==> i == 0
  {
    FirstAmd64(descs, 0)
  }

  function FirstAmd64(descs: seq<Descriptor>, from: nat): (i: nat)
    requires from <= |descs| && descs != []
    requires forall j :: 0 <= j < from ==> !IsLinuxAmd64(descs[j])
    ensures i < |descs|
    ensures (exists j :: 0 <= j < |descs| && IsLinuxAmd64(descs[j])) ==>
              IsLinuxAmd64(descs[i]) && forall j :: 0 <= j < i ==> !IsLinuxAmd64(descs[j])
    ensures (forall j :: 0 <= j < |descs| ==> !IsLinuxAmd64(descs[j])) ==> i == 0
    decreases |descs| - from
  {
    if from == |descs| then 0
    else if IsLinuxAmd64(descs[from]) then from
    else FirstAmd64(descs, from + 1)
  }

  function ReadBlob(blobs: Store, digest: Option<Digest>, absent: ReadError): Result<Blob, ReadError> {
    if digest.None? then Err(absent)
    else if digest.value.Unparsable? then Err(BadDigest(digest.value.text))
    else if digest.value !in blobs then Err(MissingBlob(digest.value))
    else Ok(blobs[digest.value])
  }

  function ConfigDigest(m: Manifest): Option<Digest> {
    if m.config.ConfigDescriptor? then m.config.desc.digest else None
  }

  function ReadConfig(blobs: Store, m: Manifest): Result<ImageConfig, ReadError> {
    match ReadBlob(blobs, ConfigDigest(m), NoConfigDigest)
    case Err(e) => Err(e)
    case Ok(b) => if AsConfig(b).Some? then Ok(AsConfig(b).value) else Err(UnreadableBlob(ConfigDigest(m).value))
  }

  function ReadEntry(blobs: Store, desc: Descriptor): Result<ImageConfig, ReadError> {
    match ReadBlob(blobs, desc.digest, NoDigest)
    case Err(e) => Err(e)
    case Ok(b) =>
      if AsManifest(b).Some? then ReadConfig(blobs, AsManifest(b).value)
      else Err(UnreadableBlob(desc.digest.value))
  }

  function ExtractConfig(l: LayoutState): Result<ImageConfig, ReadError> {
    if l.index.None? then Err(NoIndex)
    else if l.index.value.BadIndex? then Err(UnreadableIndex)
    else if l.index.value.manifests == [] then Err(NoManifests)
    else ReadEntry(l.blobs, l.index.value.manifests[Selected(l.index.value.manifests)])
  }

  // --------------------------------------------------------------- store facts

  ghost predicate Grown(a: Store, b: Store) {
    forall d :: d in a ==> d in b && b[d] == a[d]
  }

  /** The pass adds blobs under their own digest and touches none. */
  lemma {:induction false} StoreStaysOk(descs: seq<Descriptor>, blobs: Store)
    requires StoreOk(blobs)
    ensures StoreOk(NormalizeAll(descs, blobs).blobs) && Grown(blobs, NormalizeAll(descs, blobs).blobs)
  {
    if descs != [] {
      match Visit(descs[0], blobs)
      case Failed =>
      case Kept => StoreStaysOk(descs[1..], blobs);
      case Replaced(digest, content) => StoreStaysOk(descs[1..], Stored(blobs, digest, content));
    }
  }

  lemma RewrittenIsClean(m: Manifest)
    ensures !HasDockerTypes(Rewritten(m)) && ConfigDigest(Rewritten(m)) == ConfigDigest(m)
    ensures Rewritten(m).config.NullConfig? == m.config.NullConfig?
  {
  }

  /** An index entry after the pass, next to what it was: the same entry of a
      clean manifest, or one redirected to the rewritten manifest. */
  ghost predicate Normalized(before: Descriptor, after: Descriptor, blobs: Store) {
    before.platform == after.platform && before.rest == after.rest &&
    before.digest.Some? && before.digest.value in blobs && AsManifest(blobs[before.digest.value]).Some? &&
    var m := AsManifest(blobs[before.digest.value]).value;
    !m.config.NullConfig? &&
    if HasDockerTypes(m) then
      var content := Serialize(Rewritten(m));
      after == Redirected(before, Sha256(content), content) && Sha256(content) in blobs &&
      blobs[Sha256(content)] == content
    else after == before
  }

  lemma NormalizedGrows(before: Descriptor, after: Descriptor, a: Store, b: Store)
    requires Normalized(before, after, a) && Grown(a, b)
    ensures Normalized(before, after, b)
  {
  }

  /** A completed pass normalizes every entry, in place and in order. */
  lemma {:induction false} EveryEntryNormalized(descs: seq<Descriptor>, blobs: Store)
    requires StoreOk(blobs) && NormalizeAll(descs, blobs).Completed?
    ensures var p := NormalizeAll(descs, blobs);
            |p.manifests| == |descs| && forall i :: 0 <= i < |descs| ==> Normalized(descs[i], p.manifests[i], p.blobs)
  {
    if descs != [] {
      var p := NormalizeAll(descs, blobs);
      var next := match Visit(descs[0], blobs)
        case Replaced(digest, content) => Stored(blobs, digest, content)
        case _ => blobs;
      EveryEntryNormalized(descs[1..], next);
      StoreStaysOk(descs[1..], next);
      NormalizedGrows(descs[0], p.manifests[0], next, p.blobs);
      forall i | 0 < i < |descs|
        ensures Normalized(descs[i], p.manifests[i], p.blobs)
      {
        assert descs[i] == descs[1..][i - 1] && p.manifests[i] == p.manifests[1..][i - 1];
      }
    }
  }

  // ------------------------------------------------------- the pass means nothing

  /** Reading an entry gives the same answer before and after. */
  lemma SameReading(before: Descriptor, after: Descriptor, blobs: Store)
    requires Normalized(before, after, blobs) && StoreOk(blobs)
    ensures ReadEntry(blobs, after) == ReadEntry(blobs, before)
  {
    RewrittenIsClean(AsManifest(blobs[before.digest.value]).value);
  }

  lemma SameSelection(a: seq<Descriptor>, b: seq<Descriptor>)
    requires a != [] && |a| == |b| && forall i :: 0 <= i < |a| ==> a[i].platform == b[i].platform
    ensures Selected(a) == Selected(b)
  {
    var i, j := Selected(a), Selected(b);
    assert forall k :: 0 <= k < |a| ==> IsLinuxAmd64(a[k]) == IsLinuxAmd64(b[k]);
  }

  /** More blobs change an answer only when the one that was missing is there. */
  lemma ReadingGrows(a: Store, b: Store, desc: Descriptor)
    requires Grown(a, b) && StoreOk(a) && StoreOk(b)
    ensures ReadEntry(b, desc) == ReadEntry(a, desc) <==>
            !(ReadEntry(a, desc).Err? && ReadEntry(a, desc).error.MissingBlob? && ReadEntry(a, desc).error.digest in b)
  {
  }

  // ------------------------------------------------------- what the pass writes

  /** A stored manifest that can be visited. */
  predicate IsReadable(desc: Descriptor, blobs: Store) {
    desc.digest.Some? && desc.digest.value in blobs &&
    AsManifest(blobs[desc.digest.value]).Some? && !AsManifest(blobs[desc.digest.value]).value.config.NullConfig?
  }

  /** The entry names a stored manifest with docker types, and `d` is the digest
      of its rewritten form. */
  predicate RewritesTo(desc: Descriptor, blobs: Store, d: Digest) {
    IsReadable(desc, blobs) &&
    var m := AsManifest(blobs[desc.digest.value]).value;
    HasDockerTypes(m) && d == Sha256(Serialize(Rewritten(m)))
  }

  /** The entry does not stop the pass: its manifest is stored, or is the
      rewritten form of an earlier entry's. */
  ghost predicate Passes(descs: seq<Descriptor>, blobs: Store, i: nat)
    requires i < |descs|
  {
    IsReadable(descs[i], blobs) ||
    (descs[i].digest.Some? && exists k :: 0 <= k < i && RewritesTo(descs[k], blobs, descs[i].digest.value))
  }

  /** On the layout before the pass: some entry has this rewritten form, and
      neither it nor any entry before it stops the pass. */
  ghost predicate Writes(descs: seq<Descriptor>, blobs: Store, d: Digest) {
    exists i :: 0 <= i < |descs| && RewritesTo(descs[i], blobs, d) &&
                forall k :: 0 <= k <= i ==> Passes(descs, blobs, k)
  }

  function AfterVisit(desc: Descriptor, blobs: Store): Store {
    match Visit(desc, blobs)
    case Replaced(digest, content) => Stored(blobs, digest, content)
    case _ => blobs
  }

  /** The blob written for an earlier entry is readable and has no docker types. */
  lemma EntryAfterVisit(first: Descriptor, desc: Descriptor, blobs: Store, d: Digest)
    requires StoreOk(blobs) && IsReadable(first, blobs)
    ensures var next := AfterVisit(first, blobs);
            (RewritesTo(desc, next, d) <==> RewritesTo(desc, blobs, d)) &&
            (IsReadable(desc, next) <==>
             IsReadable(desc, blobs) || (desc.digest.Some? && RewritesTo(first, blobs, desc.digest.value)))
  {
    RewrittenIsClean(AsManifest(blobs[first.digest.value]).value);
  }

  lemma PassesAfterVisit(descs: seq<Descriptor>, blobs: Store, k: nat)
    requires StoreOk(blobs) && k + 1 < |descs| && IsReadable(descs[0], blobs)
    ensures Passes(descs[1..], AfterVisit(descs[0], blobs), k) <==> Passes(descs, blobs, k + 1)
  {
    var next, desc := AfterVisit(descs[0], blobs), descs[k + 1];
    hide RewritesTo, IsReadable, AfterVisit;
    if desc.digest.Some? {
      var d := desc.digest.value;
      EntryAfterVisit(descs[0], desc, blobs, d);
      forall i | 0 <= i < k
        ensures RewritesTo(descs[1..][i], next, d) <==> RewritesTo(descs[i + 1], blobs, d)
      {
        EntryAfterVisit(descs[0], descs[i + 1], blobs, d);
      }
      if j :| 0 <= j < k + 1 && RewritesTo(descs[j], blobs, d) {
        assert j > 0 ==> RewritesTo(descs[1..][j - 1], next, d);
      }
      if j :| 0 <= j < k && RewritesTo(descs[1..][j], next, d) {
        assert RewritesTo(descs[j + 1], blobs, d);
      }
    } else {
      NoDigestNotReadable(desc, blobs);
      NoDigestNotReadable(desc, next);
    }
  }

  lemma NoDigestNotReadable(desc: Descriptor, blobs: Store)
    requires desc.digest.None?
    ensures !IsReadable(desc, blobs)
  {
  }

  lemma WritesAfterVisit(descs: seq<Descriptor>, blobs: Store, d: Digest)
    requires StoreOk(blobs) && descs != [] && IsReadable(descs[0], blobs)
    ensures Writes(descs, blobs, d) <==>
            RewritesTo(descs[0], blobs, d) || Writes(descs[1..], AfterVisit(descs[0], blobs), d)
  {
    var next := AfterVisit(descs[0], blobs);
    assert Passes(descs, blobs, 0);
    forall k: nat | k + 1 < |descs|
      ensures RewritesTo(descs[1..][k], next, d) <==> RewritesTo(descs[k + 1], blobs, d)
      ensures Passes(descs[1..], next, k) <==> Passes(descs, blobs, k + 1)
    {
      EntryAfterVisit(descs[0], descs[k + 1], blobs, d);
      PassesAfterVisit(descs, blobs, k);
    }
    hide RewritesTo, IsReadable, AfterVisit, Passes;
    if RewritesTo(descs[0], blobs, d) {
      assert forall k :: 0 <= k <= 0 ==> Passes(descs, blobs, k);
    }
    if i :| 0 <= i < |descs[1..]| && RewritesTo(descs[1..][i], next, d) &&
            forall k :: 0 <= k <= i ==> Passes(descs[1..], next, k)
    {
      assert RewritesTo(descs[i + 1], blobs, d);
      forall k | 0 <= k <= i + 1
        ensures Passes(descs, blobs, k)
      {
        assert k > 0 ==> Passes(descs[1..], next, k - 1);
      }
    }
    if i :| 0 <= i < |descs| && RewritesTo(descs[i], blobs, d) && forall k :: 0 <= k <= i ==> Passes(descs, blobs, k) {
      if i > 0 {
        assert RewritesTo(descs[1..][i - 1], next, d);
        assert forall k :: 0 <= k <= i - 1 ==> Passes(descs[1..], next, k);
      }
    }
  }

  /** Which blobs are there after the pass, told from the layout before it. */
  lemma {:induction false} WrittenIff(descs: seq<Descriptor>, blobs: Store, d: Digest)
    requires StoreOk(blobs)
    ensures d in NormalizeAll(descs, blobs).blobs <==> d in blobs || Writes(descs, blobs, d)
  {
    if descs != [] {
      assert Visit(descs[0], blobs).Failed? <==> !IsReadable(descs[0], blobs);
      if IsReadable(descs[0], blobs) {
        WritesAfterVisit(descs, blobs, d);
        WrittenIff(descs[1..], AfterVisit(descs[0], blobs), d);
      } else {
        assert !Passes(descs, blobs, 0);
      }
    }
  }

  /** The blob whose absence makes the reader fail, if that is how it fails. */
  function MissingRead(l: LayoutState): Option<Digest> {
    match ExtractConfig(l)
    case Err(MissingBlob(d)) => Some(d)
    case _ => None
  }

  /** The reader fails for want of a blob that the pass is going to write. */
  ghost predicate WillBeRepaired(l: LayoutState) {
    MissingRead(l).Some? && l.index.Some? && l.index.value.Index? &&
    Writes(l.index.value.manifests, l.blobs, MissingRead(l).value)
  }

  /** Normalisation never changes the config that is read, nor how reading fails,
      except when reading fails for want of a blob that the pass itself writes:
      the rewritten form of some entry that the pass gets to. */
  lemma NormalizationKeepsConfigIff(l: LayoutState)
    requires StoreOk(l.blobs)
    ensures ExtractConfig(Normalize(l)) == ExtractConfig(l) <==> !WillBeRepaired(l)
  {
    hide Writes, NormalizeAll, Normalize;
    UnlessWritten(l);
    if MissingRead(l).Some? {
      MissingIsAbsent(l);
      BlobsAfter(l);
      WrittenIff(l.index.value.manifests, l.blobs, MissingRead(l).value);
    }
  }

  lemma MissingIsAbsent(l: LayoutState)
    requires MissingRead(l).Some?
    ensures l.index.Some? && l.index.value.Index? && MissingRead(l).value !in l.blobs
  {
  }

  lemma BlobsAfter(l: LayoutState)
    requires l.index.Some? && l.index.value.Index?
    ensures Normalize(l).blobs == NormalizeAll(l.index.value.manifests, l.blobs).blobs
  {
    var p := NormalizeAll(l.index.value.manifests, l.blobs);
    if p.Completed? && !p.changed {
      UnchangedWritesNothing(l.index.value.manifests, l.blobs);
    }
  }

  lemma UnlessWritten(l: LayoutState)
    requires StoreOk(l.blobs)
    ensures ExtractConfig(Normalize(l)) == ExtractConfig(l) <==>
            !(MissingRead(l).Some? && MissingRead(l).value in Normalize(l).blobs)
  {
    if l.index.Some? && l.index.value.Index? && l.index.value.manifests != [] {
      var descs := l.index.value.manifests;
      var p := NormalizeAll(descs, l.blobs);
      StoreStaysOk(descs, l.blobs);
      var desc := descs[Selected(descs)];
      ReadingGrows(l.blobs, p.blobs, desc);
      if p.Completed? && p.changed {
        EveryEntryNormalized(descs, l.blobs);
        SameSelection(descs, p.manifests);
        SameReading(desc, p.manifests[Selected(descs)], p.blobs);
      } else if p.Completed? {
        UnchangedWritesNothing(descs, l.blobs);
      }
    }
  }

  lemma {:induction false} UnchangedWritesNothing(descs: seq<Descriptor>, blobs: Store)
    requires NormalizeAll(descs, blobs).Completed? && !NormalizeAll(descs, blobs).changed
    ensures NormalizeAll(descs, blobs) == Completed(descs, blobs, false)
  {
    if descs != [] {
      UnchangedWritesNothing(descs[1..], blobs);
    }
  }

  /** A manifest with a docker type, and its config. */
  function SelfRepairingManifest(): Manifest {
    var config := ConfigBlob(DEFAULT_CONFIG, 0);
    var docker := Some("application/vnd.docker.container.image.v1+json");
    Manifest(ConfigDescriptor(Descriptor(docker, Some(Sha256(config)), None, None, 0)), [], 0)
  }

  /** Such a layout: its second entry, the one selected, names the rewritten
      form of its first, which is not stored yet. */
  function SelfRepairingLayout(): LayoutState {
    var config, manifest := ConfigBlob(DEFAULT_CONFIG, 0), SelfRepairingManifest();
    var stored, rewritten := Serialize(manifest), Serialize(Rewritten(manifest));
    var first := Descriptor(None, Some(Sha256(stored)), None, None, 0);
    var second := Descriptor(None, Some(Sha256(rewritten)), None, Some(Platform("linux", "amd64")), 0);
    LayoutState(Some(Index([first, second])), map[Sha256(stored) := stored, Sha256(config) := config])
  }

  /** What the pass makes of it: the first entry redirected, the second kept. */
  lemma SelfRepairingPass() returns (first: Descriptor, second: Descriptor, content: Blob)
    ensures var l := SelfRepairingLayout();
            l.index == Some(Index([first, second])) && first.platform.None? &&
            second == Descriptor(None, Some(Sha256(content)), None, Some(Platform("linux", "amd64")), 0) &&
            content == Serialize(Rewritten(SelfRepairingManifest())) &&
            Normalize(l) == LayoutState(Some(Index([Redirected(first, Sha256(content), content), second])),
                                        Stored(l.blobs, Sha256(content), content))
  {
    var l := SelfRepairingLayout();
    var descs := l.index.value.manifests;
    first, second := descs[0], descs[1];
    var m := SelfRepairingManifest();
    content := Serialize(Rewritten(m));
    RewrittenIsClean(m);
    assert Visit(first, l.blobs) == Replaced(Sha256(content), content);
    var blobs := Stored(l.blobs, Sha256(content), content);
    assert descs[1..] == [second] && Visit(second, blobs) == Kept;
    assert [second][1..] == [] && NormalizeAll([], blobs) == Completed([], blobs, false);
    assert NormalizeAll(descs, l.blobs) ==
           Completed([Redirected(first, Sha256(content), content), second], blobs, true);
  }

  lemma NormalizationMayRepair()
    ensures var l := SelfRepairingLayout();
            StoreOk(l.blobs) && ExtractConfig(l).Err? && ExtractConfig(Normalize(l)) == Ok(DEFAULT_CONFIG)
  {
    var l := SelfRepairingLayout();
    var first, second, content := SelfRepairingPass();
    var after := Normalize(l).index.value.manifests;
    hide Normalize;
    assert IsLinuxAmd64(second) && !IsLinuxAmd64(first) && !IsLinuxAmd64(after[0]);
    assert Selected([first, second]) == 1 && Selected(after) == 1;
  }

  /** In particular a config that could be read is read unchanged. */
  lemma ReadableConfigIsKept(l: LayoutState)
    requires StoreOk(l.blobs) && ExtractConfig(l).Ok?
    ensures ExtractConfig(Normalize(l)) == ExtractConfig(l)
  {
    NormalizationKeepsConfigIff(l);
  }

  /** A failure part-way leaves the index as it was, and the store well formed. */
  lemma FailureKeepsIndex(l: LayoutState)
    requires StoreOk(l.blobs)
    ensures StoreOk(Normalize(l).blobs) && Grown(l.blobs, Normalize(l).blobs)
    ensures l.index.Some? && l.index.value.Index? && NormalizeAll(l.index.value.manifests, l.blobs).Aborted? ==>
              Normalize(l).index == l.index
  {
    if l.index.Some? && l.index.value.Index? {
      StoreStaysOk(l.index.value.manifests, l.blobs);
    }
  }

  /** After a completed pass every referenced manifest is clean, and every entry
      that was redirected names its blob by digest and by size. */
  lemma CompletedIsClean(l: LayoutState, i: nat)
    requires StoreOk(l.blobs) && l.index.Some? && l.index.value.Index?
    requires NormalizeAll(l.index.value.manifests, l.blobs).Completed? && i < |l.index.value.manifests|
    ensures var l' := Normalize(l);
            l'.index.Some? && l'.index.value.Index? && |l'.index.value.manifests| == |l.index.value.manifests| &&
            var desc := l'.index.value.manifests[i];
            desc.digest.Some? && desc.digest.value in l'.blobs &&
            var b := l'.blobs[desc.digest.value];
            AsManifest(b).Some? && !HasDockerTypes(AsManifest(b).value) &&
            (desc != l.index.value.manifests[i] ==> desc.digest == Some(Sha256(b)) && desc.size == Some(LengthOf(b)))
  {
    var descs := l.index.value.manifests;
    EveryEntryNormalized(descs, l.blobs);
    var p := NormalizeAll(descs, l.blobs);
    if !p.changed {
      UnchangedWritesNothing(descs, l.blobs);
    }
    assert Normalized(descs[i], p.manifests[i], p.blobs);
    RewrittenIsClean(AsManifest(p.blobs[descs[i].digest.value]).value);
  }

  // -------------------------------------------------------------- a second run

  lemma {:induction false} CleanIsKept(descs: seq<Descriptor>, blobs: Store)
    requires forall i :: 0 <= i < |descs| ==> Visit(descs[i], blobs) == Kept
    ensures NormalizeAll(descs, blobs) == Completed(descs, blobs, false)
  {
    if descs != [] {
      assert Visit(descs[0], blobs) == Kept;
      forall i | 0 <= i < |descs[1..]|
        ensures Visit(descs[1..][i], blobs) == Kept
      {
        assert descs[1..][i] == descs[i + 1];
      }
      CleanIsKept(descs[1..], blobs);
    }
  }

  /** A pass that failed fails again at the same entry, having nothing to add. */
  lemma {:induction false} FailsAgain(descs: seq<Descriptor>, blobs: Store)
    requires StoreOk(blobs) && NormalizeAll(descs, blobs).Aborted?
    ensures var b := NormalizeAll(descs, blobs).blobs; NormalizeAll(descs, b) == Aborted(b)
  {
    var b := NormalizeAll(descs, blobs).blobs;
    var next := match Visit(descs[0], blobs)
      case Replaced(digest, content) => Stored(blobs, digest, content)
      case _ => blobs;
    if !Visit(descs[0], blobs).Failed? {
      FailsAgain(descs[1..], next);
      StoreStaysOk(descs, blobs);
      StoreStaysOk(descs[1..], next);
      assert Visit(descs[0], b) == Visit(descs[0], blobs);
    }
  }

  /** A second pass changes nothing, however the first one went. */
  lemma NormalizeTwice(l: LayoutState)
    requires StoreOk(l.blobs)
    ensures Normalize(Normalize(l)) == Normalize(l)
  {
    if l.index.Some? && l.index.value.Index? {
      var descs := l.index.value.manifests;
      var p := NormalizeAll(descs, l.blobs);
      if p.Aborted? {
        FailsAgain(descs, l.blobs);
      } else if p.changed {
        EveryEntryNormalized(descs, l.blobs);
        forall i | 0 <= i < |p.manifests|
          ensures Visit(p.manifests[i], p.blobs) == Kept
        {
          assert Normalized(descs[i], p.manifests[i], p.blobs);
          RewrittenIsClean(AsManifest(p.blobs[descs[i].digest.value]).value);
        }
        CleanIsKept(p.manifests, p.blobs);
      }
    }
  }
}
