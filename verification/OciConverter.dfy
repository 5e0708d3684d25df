/** The normalisation pass as it runs: an index edited in place, blobs written as
    it goes, every failure swallowed. */
module OciConverter {
  import opened Common
  import opened OciLayout

  /** The pass resumed after the entries already `done`. */
  function Resumed(done: seq<Descriptor>, changed: bool, p: Pass): Pass {
    match p
    case Aborted(b) => Aborted(b)
    case Completed(ds, b, more) => Completed(done + ds, b, changed || more)
  }

  /** How one entry moves the pass along. */
  lemma ResumeStep(done: seq<Descriptor>, changed: bool, descs: seq<Descriptor>, blobs: Store)
    requires descs != []
    ensures var whole := Resumed(done, changed, NormalizeAll(descs, blobs));
            match Visit(descs[0], blobs)
            case Failed => whole == Aborted(blobs)
            case Kept => whole == Resumed(done + [descs[0]], changed, NormalizeAll(descs[1..], blobs))
            case Replaced(digest, content) =>
              whole == Resumed(done + [Redirected(descs[0], digest, content)], true,
                               NormalizeAll(descs[1..], Stored(blobs, digest, content)))
  {
    match Visit(descs[0], blobs)
    case Failed =>
    case Kept =>
      var p := NormalizeAll(descs[1..], blobs);
      assert p.Completed? ==> done + ([descs[0]] + p.manifests) == done + [descs[0]] + p.manifests;
    case Replaced(digest, content) =>
      var p := NormalizeAll(descs[1..], Stored(blobs, digest, content));
      var d := Redirected(descs[0], digest, content);
      assert p.Completed? ==> done + ([d] + p.manifests) == done + [d] + p.manifests;
  }

  class LayoutDir {
    var index: Option<Index>
    var blobs: Store

    function State(): LayoutState
      reads this
    {
      LayoutState(index, blobs)
    }

    constructor (index: Option<Index>, blobs: Store)
      ensures State() == LayoutState(index, blobs)
    {
      this.index, this.blobs := index, blobs;
    }

    /** Rewrites the config type, then each layer's. */
    static method RewriteManifest(m: Manifest) returns (r: Manifest, changed: bool)
      requires !m.config.NullConfig?
      ensures r == Rewritten(m) && changed == HasDockerTypes(m)
    {
      r, changed := m, false;
      if m.config.ConfigDescriptor? && IsMapped(m.config.desc) {
        r := r.(config := ConfigDescriptor(Mapped(m.config.desc)));
        changed := true;
      }
      var layers := m.layers;
      for i := 0 to |layers|
        invariant |layers| == |m.layers|
        invariant forall j :: 0 <= j < i ==> layers[j] == Mapped(m.layers[j])
        invariant forall j :: i <= j < |layers| ==> layers[j] == m.layers[j]
        invariant changed <==> (m.config.ConfigDescriptor? && IsMapped(m.config.desc)) ||
                               exists j :: 0 <= j < i && IsMapped(m.layers[j])
      {
        if IsMapped(layers[i]) {
          layers := layers[i := Mapped(layers[i])];
          changed := true;
        }
      }
      r := r.(layers := layers);
      assert layers == MappedLayers(m.layers);
    }

    method NormalizeLayoutMediatypes()
      modifies this
      ensures State() == Normalize(old(State()))
    {
      if index.None? || index.value.BadIndex? {
        return;
      }
      var entries, changed := index.value.manifests, false;
      ghost var descs, whole := entries, NormalizeAll(entries, blobs);
      var i := 0;
      while i < |entries|
        invariant 0 <= i <= |entries| == |descs|
        invariant entries[i..] == descs[i..]
        invariant index == old(index)
        invariant whole == Resumed(entries[..i], changed, NormalizeAll(descs[i..], blobs))
        invariant !changed ==> entries == descs && blobs == old(blobs)
      {
        var desc := entries[i];
        assert desc == entries[i..][0] == descs[i..][0] && descs[i..][1..] == descs[i + 1..];
        ResumeStep(entries[..i], changed, descs[i..], blobs);
        if desc.digest.None? || desc.digest.value !in blobs {
          return;
        }
        var document := AsManifest(blobs[desc.digest.value]);
        if document.None? || document.value.config.NullConfig? {
          return;
        }
        var rewritten, manifestChanged := RewriteManifest(document.value);
        if manifestChanged {
          var content := Serialize(rewritten);
          var digest := Sha256(content);
          if digest !in blobs {
            blobs := blobs[digest := content];
          }
          entries := entries[i := Redirected(desc, digest, content)];
          changed := true;
        }
        assert entries[..i + 1] == entries[..i] + [entries[i]];
        i := i + 1;
      }
      assert entries[..i] + [] == entries && descs[i..] == [];
      if changed {
        index := Some(Index(entries));
      }
    }
  }
}
