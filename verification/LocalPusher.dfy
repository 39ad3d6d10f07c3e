/** The pusher object of pkg/storage/local.go: the methods that change the file store in place. */
module LocalPusher {
  import opened Prelude
  import opened Text
  import opened BlobStore
  import opened StoreRuns

  lemma {:induction false} PerformAppend(w: World, st: Store, a: seq<Op>, b: seq<Op>)
    ensures Perform(w, st, a + b) ==
            if Perform(w, st, a).1 then Perform(w, Perform(w, st, a).0, b) else Perform(w, st, a)
    decreases |a|
  {
    if a == [] {
      assert a + b == b;
    } else {
      assert (a + b)[1..] == a[1..] + b;
      match Effect(w, st, a[0])
      case None =>
      case Some(next) => PerformAppend(w, next, a[1..], b);
    }
  }

  lemma PerformOne(w: World, st: Store, op: Op)
    ensures Perform(w, st, [op]) ==
            match Effect(w, st, op) case None => (st, false) case Some(next) => (next, true)
  {
    assert [op][1..] == [];
    match Effect(w, st, op)
    case None =>
    case Some(next) => assert Perform(w, next, []) == (next, true);
  }

  lemma {:induction false} LayerOpsSnoc(layers: seq<Layer>, l: Layer)
    ensures LayerOps(layers + [l]) == LayerOps(layers) + [SaveLayer(l)]
  {
    if layers == [] {
      assert [l][1..] == [];
    } else {
      assert (layers + [l])[1..] == layers[1..] + [l];
      LayerOpsSnoc(layers[1..], l);
    }
  }

  /** Ready operations keep the store's promise however far they get. */
  lemma {:induction false} PerformKeepsClosed(w: World, st: Store, ops: seq<Op>)
    requires CollisionFree(w) && Closed(w, st) && Ready(w, st.blobs, ops)
    ensures Closed(w, Perform(w, st, ops).0)
    ensures Within(st.blobs, Perform(w, st, ops).0.blobs)
    decreases |ops|
  {
    if ops != [] {
      if ops[0].SaveLayer? && Hit(w, st, ops[0].layer) {
        HitIsTheLayer(w, st, ops);
        PerformKeepsClosed(w, st, ops[1..]);
      } else if Publish(w, st, ops[0]).Some? {
        PublishKeepsClosed(w, st, ops);
        PerformKeepsClosed(w, Publish(w, st, ops[0]).value, ops[1..]);
      }
    }
  }

  /** Operations that all succeed leave the blobs that they were planned to leave: a layer that was
      found in place was the right one. */
  lemma {:induction false} PerformIsAfter(w: World, st: Store, ops: seq<Op>)
    requires CollisionFree(w) && Closed(w, st) && Ready(w, st.blobs, ops) && Perform(w, st, ops).1
    ensures Perform(w, st, ops).0.blobs == After(w, st.blobs, ops)
    decreases |ops|
  {
    if ops != [] {
      if ops[0].SaveLayer? && Hit(w, st, ops[0].layer) {
        HitIsTheLayer(w, st, ops);
        FilingOnlyAdds(w, st.blobs, ops[0].layer.content);
        PerformIsAfter(w, st, ops[1..]);
      } else {
        PublishKeepsClosed(w, st, ops);
        PerformIsAfter(w, Publish(w, st, ops[0]).value, ops[1..]);
      }
    }
  }

  /** A pushed image is there with all its parts, and the store keeps its promise. */
  lemma PushedImageIsComplete(w: World, st: Store, name: string, tag: string, image: Image)
    requires CollisionFree(w) && Closed(w, st) && Describes(w, image)
    ensures var (st', ok) := Perform(w, st, ImageOps(w, name, tag, image));
            && Closed(w, st') && Within(st.blobs, st'.blobs)
            && (ok ==> Complete(w, st'.blobs, image.manifest))
  {
    var ops := ImageOps(w, name, tag, image);
    ImageReady(w, st.blobs, name, tag, image);
    PerformKeepsClosed(w, st, ops);
    if Perform(w, st, ops).1 {
      PerformIsAfter(w, st, ops);
    }
  }

  /** Without tag operations no tag changes. */
  lemma {:induction false} PerformKeepsTags(w: World, st: Store, ops: seq<Op>)
    requires forall i :: 0 <= i < |ops| ==> !ops[i].WriteTag?
    ensures Perform(w, st, ops).0.manifests == st.manifests
    decreases |ops|
  {
    if ops != [] {
      match Effect(w, st, ops[0])
      case None =>
      case Some(next) => PerformKeepsTags(w, next, ops[1..]);
    }
  }

  /** The tags after an image has been pushed: one more on success, the same as before on failure. */
  lemma ImageTags(w: World, st: Store, name: string, tag: string, image: Image)
    ensures var (st', ok) := Perform(w, st, ImageOps(w, name, tag, image));
            st'.manifests ==
            if ok && Tagged(name, tag) then st.manifests[LocalManifestPath(name, tag) := image.manifest]
            else st.manifests
  {
    var pre := LayerOps(image.layers) + [WriteBlob("sha256:" + w.sum(image.config), image.config)];
    LayersWriteNoTag(image.layers);
    PerformKeepsTags(w, st, pre);
    PerformAppend(w, st, pre, ManifestOps(w, name, tag, image.manifest));
    var (mid, ok) := Perform(w, st, pre);
    ManifestTags(w, mid, name, tag, image.manifest);
  }

  lemma ManifestTags(w: World, st: Store, name: string, tag: string, manifest: Content)
    ensures Perform(w, st, ManifestOps(w, name, tag, manifest)) == (SavedManifest(w, st, name, tag, manifest), true)
  {
    var blob := WriteBlob(w.sum(manifest), manifest);
    PerformOne(w, st, blob);
    var mid := Effect(w, st, blob).value;
    if Tagged(name, tag) {
      PerformOne(w, mid, WriteTag(name, tag, manifest));
      PerformAppend(w, st, [blob], [WriteTag(name, tag, manifest)]);
    } else {
      assert ManifestOps(w, name, tag, manifest) == [blob];
    }
  }

  // ----- when a push succeeds -----

  /** Pushing layers loses no blob; it succeeds when none of them is empty, and after it all of them
      are there. */
  lemma {:induction false} LayersPush(w: World, st: Store, layers: seq<Layer>)
    ensures var (st', ok) := Perform(w, st, LayerOps(layers));
            && st.blobs.Keys <= st'.blobs.Keys
            && ((forall i :: 0 <= i < |layers| ==> |layers[i].content| > 0) ==> ok)
            && (ok ==> forall i :: 0 <= i < |layers| ==> BlobFile(w, layers[i].content) in st'.blobs)
    decreases |layers|
  {
    if layers != [] {
      var op := Op.SaveLayer(layers[0]);
      assert LayerOps(layers)[1..] == LayerOps(layers[1..]);
      match Effect(w, st, op)
      case None =>
      case Some(next) =>
        assert BlobFile(w, layers[0].content) in next.blobs;
        LayersPush(w, next, layers[1..]);
    }
  }

  /** The layer is not empty, or it is known beforehand and found in place, empty as it is. */
  predicate Storable(w: World, blobs: map<string, Content>, layer: Layer) {
    || |layer.content| > 0
    || (layer.known && BlobFile(w, layer.content) in blobs && |blobs[BlobFile(w, layer.content)]| == 0)
  }

  lemma StorableStays(w: World, blobs: map<string, Content>, c: Content, layer: Layer)
    requires CollisionFree(w) && |c| > 0
    ensures Storable(w, blobs[BlobFile(w, c) := c], layer) <==> Storable(w, blobs, layer)
  {
    if BlobFile(w, c) == BlobFile(w, layer.content) {
      SameFileSameContent(w, c, layer.content);
    }
  }

  lemma {:induction false} LayersPushExactly(w: World, st: Store, layers: seq<Layer>)
    requires CollisionFree(w)
    ensures Perform(w, st, LayerOps(layers)).1 <==> forall i :: 0 <= i < |layers| ==> Storable(w, st.blobs, layers[i])
    decreases |layers|
  {
    if layers != [] {
      var l, rest := layers[0], layers[1..];
      assert LayerOps(layers)[1..] == LayerOps(rest);
      assert Effect(w, st, Op.SaveLayer(l)).Some? <==> Storable(w, st.blobs, l);
      if Storable(w, st.blobs, l) {
        var next := Effect(w, st, Op.SaveLayer(l)).value;
        LayersPushExactly(w, next, rest);
        forall i | 0 <= i < |rest|
          ensures Storable(w, next.blobs, rest[i]) <==> Storable(w, st.blobs, layers[i + 1])
        {
          if next != st {
            StorableStays(w, st.blobs, l.content, rest[i]);
          }
        }
        assert forall i :: 0 < i < |layers| ==> layers[i] == rest[i - 1];
      }
    }
  }

  lemma ConfigAndManifest(w: World, st: Store, name: string, tag: string, image: Image)
    ensures var config := WriteBlob("sha256:" + w.sum(image.config), image.config);
            var (st', ok) := Perform(w, st, [config] + ManifestOps(w, name, tag, image.manifest));
            && ok && st.blobs.Keys <= st'.blobs.Keys
            && LocalBlobPath("sha256:" + w.sum(image.config)) in st'.blobs
            && BlobFile(w, image.manifest) in st'.blobs && st'.blobs[BlobFile(w, image.manifest)] == image.manifest
  {
    var config := WriteBlob("sha256:" + w.sum(image.config), image.config);
    PerformOne(w, st, config);
    PerformAppend(w, st, [config], ManifestOps(w, name, tag, image.manifest));
    ManifestTags(w, Perform(w, st, [config]).0, name, tag, image.manifest);
  }

  /** What a push comes to.  It succeeds, on every store, when no layer is empty, and it fails exactly
      when it meets an empty layer that is not found in place.  After it the layers, the configuration
      and the manifest are filed under their digests, and the tag, for a reference that is a tag, holds
      the manifest; a failed push changes no tag. */
  ghost predicate PushReport(w: World, before: Store, after: Store, name: string, tag: string, image: Image, ok: bool) {
    && ((forall i :: 0 <= i < |image.layers| ==> |image.layers[i].content| > 0) ==> ok)
    && (CollisionFree(w) ==>
          (ok <==> forall i :: 0 <= i < |image.layers| ==> Storable(w, before.blobs, image.layers[i])))
    && (ok ==>
          && (forall i :: 0 <= i < |image.layers| ==> LocalBlobPath(w.sum(image.layers[i].content)) in after.blobs)
          && LocalBlobPath("sha256:" + w.sum(image.config)) in after.blobs
          && LocalBlobPath(w.sum(image.manifest)) in after.blobs
          && after.blobs[LocalBlobPath(w.sum(image.manifest))] == image.manifest)
    && after.manifests ==
       if ok && name != "" && tag != "" && !HasPrefix(tag, "sha256:")
       then before.manifests[name + "/" + tag + "/manifest.json" := image.manifest]
       else before.manifests
  }

  lemma PushReported(w: World, st: Store, name: string, tag: string, image: Image)
    ensures var (st', ok) := Perform(w, st, ImageOps(w, name, tag, image));
            PushReport(w, st, st', name, tag, image, ok)
  {
    var layers := LayerOps(image.layers);
    var rest := [WriteBlob("sha256:" + w.sum(image.config), image.config)] + ManifestOps(w, name, tag, image.manifest);
    assert ImageOps(w, name, tag, image) == layers + rest;
    PerformAppend(w, st, layers, rest);
    LayersPush(w, st, image.layers);
    ConfigAndManifest(w, Perform(w, st, layers).0, name, tag, image);
    ImageTags(w, st, name, tag, image);
    if CollisionFree(w) {
      LayersPushExactly(w, st, image.layers);
    }
  }

  function SavedManifest(w: World, st: Store, name: string, tag: string, manifest: Content): Store {
    Store(st.blobs[BlobFile(w, manifest) := manifest],
          if Tagged(name, tag) then st.manifests[LocalManifestPath(name, tag) := manifest] else st.manifests)
  }

  class LocalPusher {
    const w: World
    var blobs: map<string, Content>
    var manifests: map<string, Content>

    constructor (w: World)
      ensures this.w == w && Current() == Store(map[], map[])
    {
      this.w := w;
      blobs := map[];
      manifests := map[];
    }

    function Current(): Store
      reads this
    {
      Store(blobs, manifests)
    }

    /** `saveLayer`: keep a file of the right name and size, else stream the layer into a temporary
        file, refuse it when it is empty, and rename it to its digest. */
    method SaveLayer(layer: Layer) returns (ok: bool)
      modifies this
      ensures var path := LocalBlobPath(w.sum(layer.content));
              var hit := layer.known && path in old(blobs) && |old(blobs)[path]| == |layer.content|;
              && (ok <==> hit || |layer.content| > 0)
              && blobs == (if hit || !ok then old(blobs) else old(blobs)[path := layer.content])
              && manifests == old(manifests)
      ensures Effect(w, old(Current()), Op.SaveLayer(layer)) == if ok then Some(Current()) else None
      ensures !ok ==> Current() == old(Current())
    {
      if layer.known {
        var cachePath := LocalBlobPath(w.sum(layer.content));
        if cachePath in blobs {
          var n := |blobs[cachePath]|;
          if n == |layer.content| {
            return true;
          }
        }
      }
      var file := layer.content;
      var size := |layer.content|;
      if size <= 0 {
        return false;
      }
      var cachePath := LocalBlobPath(w.sum(layer.content));
      blobs := blobs[cachePath := file];
      return true;
    }

    /** `saveManifest`: the blob first, then the tag, if there is one. */
    method SaveManifest(manifestBlob: Content, name: string, tag: string)
      modifies this
      ensures blobs == old(blobs)[LocalBlobPath(w.sum(manifestBlob)) := manifestBlob]
      ensures manifests == if name != "" && tag != "" && !HasPrefix(tag, "sha256:")
                           then old(manifests)[name + "/" + tag + "/manifest.json" := manifestBlob]
                           else old(manifests)
      ensures Current() == SavedManifest(w, old(Current()), name, tag, manifestBlob)
      ensures Perform(w, old(Current()), ManifestOps(w, name, tag, manifestBlob)) == (Current(), true)
    {
      ManifestTags(w, Current(), name, tag, manifestBlob);
      blobs := blobs[LocalBlobPath(w.sum(manifestBlob)) := manifestBlob];
      if name != "" && tag != "" && !HasPrefix(tag, "sha256:") {
        manifests := manifests[LocalManifestPath(name, tag) := manifestBlob];
      }
    }

    /** `PushImage`; `PushImageWithIndex` is the same with an empty tag. */
    method PushImage(name: string, tag: string, image: Image) returns (ok: bool)
      modifies this
      ensures Perform(w, old(Current()), ImageOps(w, name, tag, image)) == (Current(), ok)
      ensures PushReport(w, old(Current()), Current(), name, tag, image, ok)
      ensures CollisionFree(w) && Closed(w, old(Current())) && Describes(w, image) ==>
                && Closed(w, Current()) && Within(old(blobs), blobs)
                && (ok ==> Complete(w, blobs, image.manifest))
    {
      ghost var start := Current();
      ghost var layers := LayerOps(image.layers);
      ghost var config := WriteBlob("sha256:" + w.sum(image.config), image.config);
      PushReported(w, start, name, tag, image);
      if CollisionFree(w) && Closed(w, start) && Describes(w, image) {
        PushedImageIsComplete(w, start, name, tag, image);
      }
      PerformAppend(w, start, layers + [config], ManifestOps(w, name, tag, image.manifest));
      PerformAppend(w, start, layers, [config]);
      for i := 0 to |image.layers|
        invariant Perform(w, start, LayerOps(image.layers[..i])) == (Current(), true)
      {
        ghost var before := LayerOps(image.layers[..i]);
        assert image.layers[..i + 1] == image.layers[..i] + [image.layers[i]];
        assert image.layers == image.layers[..i + 1] + image.layers[i + 1..];
        LayerOpsSnoc(image.layers[..i], image.layers[i]);
        PerformAppend(w, start, before, [Op.SaveLayer(image.layers[i])]);
        PerformOne(w, Current(), Op.SaveLayer(image.layers[i]));
        ok := SaveLayer(image.layers[i]);
        if !ok {
          LayersFail(w, start, image.layers, i);
          return;
        }
      }
      assert image.layers[..|image.layers|] == image.layers;
      PerformOne(w, Current(), config);
      blobs := blobs[LocalBlobPath("sha256:" + w.sum(image.config)) := image.config];
      SaveManifest(image.manifest, name, tag);
      ok := true;
    }

    method PushImageWithIndex(name: string, image: Image) returns (ok: bool)
      modifies this
      ensures Perform(w, old(Current()), ImageOps(w, name, "", image)) == (Current(), ok)
      ensures manifests == old(manifests)
      ensures PushReport(w, old(Current()), Current(), name, "", image, ok)
      ensures CollisionFree(w) && Closed(w, old(Current())) && Describes(w, image) ==>
                && Closed(w, Current()) && Within(old(blobs), blobs)
                && (ok ==> Complete(w, blobs, image.manifest))
    {
      ok := PushImage(name, "", image);
    }

    method PushImageIndex(name: string, tag: string, index: Content)
      modifies this
      ensures blobs == old(blobs)[LocalBlobPath(w.sum(index)) := index]
      ensures manifests == if name != "" && tag != "" && !HasPrefix(tag, "sha256:")
                           then old(manifests)[name + "/" + tag + "/manifest.json" := index]
                           else old(manifests)
      ensures Current() == SavedManifest(w, old(Current()), name, tag, index)
      ensures Perform(w, old(Current()), ManifestOps(w, name, tag, index)) == (Current(), true)
    {
      SaveManifest(index, name, tag);
    }
  }

  /** A layer that fails ends the push where it stands. */
  lemma LayersFail(w: World, st: Store, layers: seq<Layer>, i: nat)
    requires i < |layers| && !Perform(w, st, LayerOps(layers[..i + 1])).1
    ensures Perform(w, st, LayerOps(layers)) == Perform(w, st, LayerOps(layers[..i + 1]))
  {
    LayerOpsAppend(layers[..i + 1], layers[i + 1..]);
    assert layers[..i + 1] + layers[i + 1..] == layers;
    PerformAppend(w, st, LayerOps(layers[..i + 1]), LayerOps(layers[i + 1..]));
  }

  lemma {:induction false} LayerOpsAppend(a: seq<Layer>, b: seq<Layer>)
    ensures LayerOps(a + b) == LayerOps(a) + LayerOps(b)
  {
    if a == [] {
      assert a + b == b;
    } else {
      assert (a + b)[1..] == a[1..] + b;
      LayerOpsAppend(a[1..], b);
    }
  }
}
