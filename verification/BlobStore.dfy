/** The local content-addressed store of pkg/storage/local.go and pkg/atomic/files.go, under any
    number of interleaved builds.

    SHA-256 and the JSON layout of manifests are parameters: a collision-free `sum` and a function
    that reads off which digests a manifest refers to. */
module BlobStore {
  import opened Prelude
  import opened Text

  type Content = string

  /** The digests (bare hex) that a manifest refers to. */
  datatype Refs = ImageRefs(config: string, layers: seq<string>) | IndexRefs(children: seq<string>) | NoRefs

  datatype World = World(sum: Content -> string, refs: Content -> Refs)

  ghost predicate CollisionFree(w: World) {
    && (forall c, d :: w.sum(c) == w.sum(d) ==> c == d)
    && (forall c :: w.sum(c) != "" && !HasPrefix(w.sum(c), "sha256:"))
  }

  /** `LocalBlobPath`, relative to the blob directory. */
  function LocalBlobPath(hash: string): string {
    if hash == "" then ""
    else if HasPrefix(hash, "sha256:") then hash
    else "sha256:" + hash
  }

  /** `LocalManifestPath`, relative to the manifest directory. */
  function LocalManifestPath(name: string, tag: string): string {
    name + "/" + tag + "/manifest.json"
  }

  /** Bare and prefixed digests name the same file, different bare digests name different files,
      and no digest names a temporary file. */
  lemma BlobNames(a: string, b: string)
    requires a != "" && b != "" && !HasPrefix(a, "sha256:") && !HasPrefix(b, "sha256:")
    ensures LocalBlobPath("sha256:" + a) == LocalBlobPath(a) == "sha256:" + a
    ensures LocalBlobPath(a) == LocalBlobPath(b) <==> a == b
    ensures !HasPrefix(LocalBlobPath(a), "tmp-")
  {
    assert ("sha256:" + a)[..7] == "sha256:";
    assert LocalBlobPath(a)[7..] == a && LocalBlobPath(b)[7..] == b;
    assert LocalBlobPath(a)[0] == 's';
  }

  datatype Store = Store(blobs: map<string, Content>, manifests: map<string, Content>)

  /** A layer as it comes to the pusher: its bytes, and whether its digest is known before they
      have been streamed. */
  datatype Layer = Layer(content: Content, known: bool)

  datatype Image = Image(layers: seq<Layer>, config: Content, manifest: Content)

  function BlobFile(w: World, c: Content): string {
    LocalBlobPath(w.sum(c))
  }

  // ----- what one file operation does -----

  datatype Op = SaveLayer(layer: Layer) | WriteBlob(name: string, content: Content)
              | WriteTag(name: string, tag: string, content: Content)

  function Payload(op: Op): Content {
    if op.SaveLayer? then op.layer.content else op.content
  }

  /** `saveLayer` keeps a file of the right name and size. */
  predicate Hit(w: World, st: Store, layer: Layer) {
    var file := BlobFile(w, layer.content);
    layer.known && file in st.blobs && |st.blobs[file]| == |layer.content|
  }

  /** The rename that publishes a finished temporary file; an empty layer is refused. */
  function Publish(w: World, st: Store, op: Op): Option<Store> {
    match op
    case SaveLayer(l) =>
      if |l.content| == 0 then None
      else Some(st.(blobs := st.blobs[BlobFile(w, l.content) := l.content]))
    case WriteBlob(name, c) => Some(st.(blobs := st.blobs[LocalBlobPath(name) := c]))
    case WriteTag(name, tag, c) => Some(st.(manifests := st.manifests[LocalManifestPath(name, tag) := c]))
  }

  /** One operation run without interruption. */
  function Effect(w: World, st: Store, op: Op): Option<Store> {
    if op.SaveLayer? && Hit(w, st, op.layer) then Some(st) else Publish(w, st, op)
  }

  /** Operations run in order until one fails. */
  function Perform(w: World, st: Store, ops: seq<Op>): (Store, bool)
    decreases |ops|
  {
    if ops == [] then (st, true)
    else
      match Effect(w, st, ops[0])
      case None => (st, false)
      case Some(next) => Perform(w, next, ops[1..])
  }

  function LayerOps(layers: seq<Layer>): seq<Op> {
    if layers == [] then [] else [SaveLayer(layers[0])] + LayerOps(layers[1..])
  }

  predicate Tagged(name: string, tag: string) {
    name != "" && tag != "" && !HasPrefix(tag, "sha256:")
  }

  /** The operations of `saveManifest`. */
  function ManifestOps(w: World, name: string, tag: string, manifest: Content): seq<Op> {
    [WriteBlob(w.sum(manifest), manifest)] + if Tagged(name, tag) then [WriteTag(name, tag, manifest)] else []
  }

  /** The operations of `PushImage`; with an empty tag, those of `PushImageWithIndex`. */
  function ImageOps(w: World, name: string, tag: string, image: Image): seq<Op> {
    LayerOps(image.layers)
    + [WriteBlob("sha256:" + w.sum(image.config), image.config)]
    + ManifestOps(w, name, tag, image.manifest)
  }

  function ChildrenOps(w: World, name: string, children: seq<Image>): seq<Op> {
    if children == [] then []
    else
      var k := |children| - 1;
      ChildrenOps(w, name, children[..k]) + ImageOps(w, name, "", children[k])
  }

  /** A build as `buildAndSave` pushes it. */
  datatype Build =
    | Single(name: string, tag: string, image: Image)
    | Multi(name: string, tag: string, children: seq<Image>, index: Content)

  function BuildOps(w: World, b: Build): seq<Op> {
    match b
    case Single(name, tag, image) => ImageOps(w, name, tag, image)
    case Multi(name, tag, children, index) => ChildrenOps(w, name, children) + ManifestOps(w, name, tag, index)
  }

  /** A manifest describes the image it belongs to. */
  ghost predicate Describes(w: World, image: Image) {
    w.refs(image.manifest) ==
    ImageRefs(w.sum(image.config), seq(|image.layers|, i requires 0 <= i < |image.layers| => w.sum(image.layers[i].content)))
  }

  ghost predicate ValidBuild(w: World, b: Build) {
    match b
    case Single(_, _, image) => Describes(w, image)
    case Multi(_, _, children, index) =>
      && AllDescribed(w, children)
      && w.refs(index) ==
         IndexRefs(seq(|children|, i requires 0 <= i < |children| => w.sum(children[i].manifest)))
  }

  // ----- the promise of the store -----

  /** Every blob is filed under its own digest. */
  ghost predicate Matching(w: World, blobs: map<string, Content>) {
    forall p :: p in blobs ==> p == BlobFile(w, blobs[p])
  }

  predicate Stored(blobs: map<string, Content>, hash: string) {
    LocalBlobPath(hash) in blobs
  }

  ghost predicate ImageStored(blobs: map<string, Content>, refs: Refs) {
    && refs.ImageRefs?
    && Stored(blobs, refs.config)
    && (forall i :: 0 <= i < |refs.layers| ==> Stored(blobs, refs.layers[i]))
  }

  /** The manifest itself and everything it refers to, through the manifests of an index. */
  ghost predicate Complete(w: World, blobs: map<string, Content>, manifest: Content) {
    && Stored(blobs, w.sum(manifest))
    && match w.refs(manifest)
       case NoRefs => true
       case ImageRefs(_, _) => ImageStored(blobs, w.refs(manifest))
       case IndexRefs(children) =>
         forall i :: 0 <= i < |children| ==>
           Stored(blobs, children[i]) && ImageStored(blobs, w.refs(blobs[LocalBlobPath(children[i])]))
  }

  ghost predicate Closed(w: World, st: Store) {
    && Matching(w, st.blobs)
    && (forall p :: p in st.manifests ==> Complete(w, st.blobs, st.manifests[p]))
  }

  // ----- the order of writes keeps the promise -----

  /** Every tag write comes when all that it needs is there, counting the writes before it. */
  ghost predicate Ready(w: World, blobs: map<string, Content>, ops: seq<Op>)
    decreases |ops|
  {
    ops == [] ||
    match ops[0]
    case SaveLayer(l) => Ready(w, blobs[BlobFile(w, l.content) := l.content], ops[1..])
    case WriteBlob(name, c) =>
      LocalBlobPath(name) == BlobFile(w, c) && Ready(w, blobs[LocalBlobPath(name) := c], ops[1..])
    case WriteTag(_, _, c) => Complete(w, blobs, c) && Ready(w, blobs, ops[1..])
  }

  function After(w: World, blobs: map<string, Content>, ops: seq<Op>): map<string, Content>
    decreases |ops|
  {
    if ops == [] then blobs
    else
      match ops[0]
      case SaveLayer(l) => After(w, blobs[BlobFile(w, l.content) := l.content], ops[1..])
      case WriteBlob(name, c) => After(w, blobs[LocalBlobPath(name) := c], ops[1..])
      case WriteTag(_, _, c) => After(w, blobs, ops[1..])
  }

  ghost predicate Within(a: map<string, Content>, b: map<string, Content>) {
    forall p :: p in a ==> p in b && b[p] == a[p]
  }

  lemma SameFileSameContent(w: World, c: Content, d: Content)
    requires CollisionFree(w) && BlobFile(w, c) == BlobFile(w, d)
    ensures c == d
  {
    BlobNames(w.sum(c), w.sum(d));
  }

  /** Filing a blob under its digest never changes a blob that is there. */
  lemma FilingOnlyAdds(w: World, blobs: map<string, Content>, c: Content)
    requires CollisionFree(w) && Matching(w, blobs)
    ensures Within(blobs, blobs[BlobFile(w, c) := c])
    ensures Matching(w, blobs[BlobFile(w, c) := c])
    ensures BlobFile(w, c) in blobs ==> blobs[BlobFile(w, c) := c] == blobs
  {
    var p := BlobFile(w, c);
    if p in blobs {
      SameFileSameContent(w, c, blobs[p]);
    }
  }

  lemma CompleteIsStable(w: World, a: map<string, Content>, b: map<string, Content>, manifest: Content)
    requires Within(a, b) && Complete(w, a, manifest)
    ensures Complete(w, b, manifest)
  {
  }

  /** What other builds add in the meantime does no harm. */
  lemma {:induction false} ReadyIsStable(w: World, a: map<string, Content>, b: map<string, Content>, ops: seq<Op>)
    requires Within(a, b) && Ready(w, a, ops)
    ensures Ready(w, b, ops)
    decreases |ops|
  {
    if ops != [] {
      match ops[0]
      case SaveLayer(l) =>
        var p := BlobFile(w, l.content);
        ReadyIsStable(w, a[p := l.content], b[p := l.content], ops[1..]);
      case WriteBlob(name, c) =>
        var p := LocalBlobPath(name);
        ReadyIsStable(w, a[p := c], b[p := c], ops[1..]);
      case WriteTag(_, _, c) =>
        CompleteIsStable(w, a, b, c);
        ReadyIsStable(w, a, b, ops[1..]);
    }
  }

  lemma {:induction false} ReadyAppend(w: World, blobs: map<string, Content>, a: seq<Op>, b: seq<Op>)
    ensures Ready(w, blobs, a + b) <==> Ready(w, blobs, a) && Ready(w, After(w, blobs, a), b)
    ensures After(w, blobs, a + b) == After(w, After(w, blobs, a), b)
    decreases |a|
  {
    if a == [] {
      assert a + b == b;
    } else {
      assert (a + b)[1..] == a[1..] + b;
      var next := match a[0]
        case SaveLayer(l) => blobs[BlobFile(w, l.content) := l.content]
        case WriteBlob(name, c) => blobs[LocalBlobPath(name) := c]
        case WriteTag(_, _, _) => blobs;
      ReadyAppend(w, next, a[1..], b);
    }
  }

  lemma {:induction false} AfterOnlyAdds(w: World, blobs: map<string, Content>, ops: seq<Op>)
    requires CollisionFree(w) && Matching(w, blobs) && Ready(w, blobs, ops)
    ensures Within(blobs, After(w, blobs, ops)) && Matching(w, After(w, blobs, ops))
    decreases |ops|
  {
    if ops != [] {
      if ops[0].WriteTag? {
        AfterOnlyAdds(w, blobs, ops[1..]);
      } else {
        var c := Payload(ops[0]);
        FilingOnlyAdds(w, blobs, c);
        AfterOnlyAdds(w, blobs[BlobFile(w, c) := c], ops[1..]);
      }
    }
  }

  lemma {:induction false} LayersReady(w: World, blobs: map<string, Content>, layers: seq<Layer>)
    requires CollisionFree(w) && Matching(w, blobs)
    ensures Ready(w, blobs, LayerOps(layers))
    ensures forall i :: 0 <= i < |layers| ==> Stored(After(w, blobs, LayerOps(layers)), w.sum(layers[i].content))
    decreases |layers|
  {
    if layers != [] {
      var c, rest := layers[0].content, LayerOps(layers[1..]);
      var next := blobs[BlobFile(w, c) := c];
      assert LayerOps(layers)[1..] == rest;
      FilingOnlyAdds(w, blobs, c);
      LayersReady(w, next, layers[1..]);
      AfterOnlyAdds(w, next, rest);
      assert Stored(next, w.sum(c));
    }
  }

  lemma OneBlob(w: World, blobs: map<string, Content>, name: string, c: Content)
    requires LocalBlobPath(name) == BlobFile(w, c)
    ensures Ready(w, blobs, [WriteBlob(name, c)])
    ensures After(w, blobs, [WriteBlob(name, c)]) == blobs[BlobFile(w, c) := c]
  {
    var ops, next := [WriteBlob(name, c)], blobs[BlobFile(w, c) := c];
    assert ops[1..] == [];
    assert After(w, next, []) == next;
    assert Ready(w, next, []);
  }

  lemma ManifestReady(w: World, blobs: map<string, Content>, name: string, tag: string, manifest: Content)
    requires CollisionFree(w) && Matching(w, blobs)
    requires Complete(w, blobs[BlobFile(w, manifest) := manifest], manifest)
    ensures Ready(w, blobs, ManifestOps(w, name, tag, manifest))
    ensures After(w, blobs, ManifestOps(w, name, tag, manifest)) == blobs[BlobFile(w, manifest) := manifest]
  {
    var blob := [WriteBlob(w.sum(manifest), manifest)];
    OneBlob(w, blobs, w.sum(manifest), manifest);
    if Tagged(name, tag) {
      ReadyAppend(w, blobs, blob, [WriteTag(name, tag, manifest)]);
    } else {
      assert ManifestOps(w, name, tag, manifest) == blob;
    }
  }

  /** An image can be pushed onto any store: layers, config, manifest and tag come in an order
      in which the tag finds everything. */
  lemma ImageReady(w: World, blobs: map<string, Content>, name: string, tag: string, image: Image)
    requires CollisionFree(w) && Matching(w, blobs) && Describes(w, image)
    ensures Ready(w, blobs, ImageOps(w, name, tag, image))
    ensures Complete(w, After(w, blobs, ImageOps(w, name, tag, image)), image.manifest)
  {
    var layers, config := LayerOps(image.layers), [WriteBlob("sha256:" + w.sum(image.config), image.config)];
    var manifest := ManifestOps(w, name, tag, image.manifest);
    LayersReady(w, blobs, image.layers);
    AfterOnlyAdds(w, blobs, layers);
    var one := After(w, blobs, layers);
    BlobNames(w.sum(image.config), w.sum(image.config));
    FilingOnlyAdds(w, one, image.config);
    var two := one[BlobFile(w, image.config) := image.config];
    OneBlob(w, one, "sha256:" + w.sum(image.config), image.config);
    FilingOnlyAdds(w, two, image.manifest);
    var three := two[BlobFile(w, image.manifest) := image.manifest];
    assert Complete(w, three, image.manifest) by {
      assert Stored(two, w.sum(image.config));
      assert Stored(three, w.sum(image.manifest));
    }
    ManifestReady(w, two, name, tag, image.manifest);
    ReadyAppend(w, blobs, layers, config);
    ReadyAppend(w, blobs, layers + config, manifest);
  }

  ghost predicate AllComplete(w: World, blobs: map<string, Content>, images: seq<Image>) {
    forall i :: 0 <= i < |images| ==> Complete(w, blobs, images[i].manifest)
  }

  ghost predicate AllDescribed(w: World, images: seq<Image>) {
    forall i :: 0 <= i < |images| ==> Describes(w, images[i])
  }

  lemma OneMoreComplete(w: World, a: map<string, Content>, b: map<string, Content>, images: seq<Image>)
    requires images != [] && Within(a, b)
    requires AllComplete(w, a, images[..|images| - 1]) && Complete(w, b, images[|images| - 1].manifest)
    ensures AllComplete(w, b, images)
  {
    forall i | 0 <= i < |images|
      ensures Complete(w, b, images[i].manifest)
    {
      if i < |images| - 1 {
        assert images[..|images| - 1][i] == images[i];
        CompleteIsStable(w, a, b, images[i].manifest);
      }
    }
  }

  lemma {:induction false} ChildrenReady(w: World, blobs: map<string, Content>, name: string, children: seq<Image>)
    requires CollisionFree(w) && Matching(w, blobs) && AllDescribed(w, children)
    ensures Ready(w, blobs, ChildrenOps(w, name, children))
    ensures AllComplete(w, After(w, blobs, ChildrenOps(w, name, children)), children)
  {
    if children != [] {
      var k := |children| - 1;
      var before, last := ChildrenOps(w, name, children[..k]), ImageOps(w, name, "", children[k]);
      ChildrenReady(w, blobs, name, children[..k]);
      AfterOnlyAdds(w, blobs, before);
      var mid := After(w, blobs, before);
      ImageReady(w, mid, name, "", children[k]);
      AfterOnlyAdds(w, mid, last);
      ReadyAppend(w, blobs, before, last);
      OneMoreComplete(w, mid, After(w, mid, last), children);
    }
  }

  /** So can every build, single or multi-platform. */
  lemma BuildReady(w: World, blobs: map<string, Content>, b: Build)
    requires CollisionFree(w) && Matching(w, blobs) && ValidBuild(w, b)
    ensures Ready(w, blobs, BuildOps(w, b))
  {
    match b
    case Single(name, tag, image) => ImageReady(w, blobs, name, tag, image);
    case Multi(name, tag, children, index) =>
      var pushes := ChildrenOps(w, name, children);
      ChildrenReady(w, blobs, name, children);
      AfterOnlyAdds(w, blobs, pushes);
      var mid := After(w, blobs, pushes);
      FilingOnlyAdds(w, mid, index);
      IndexComplete(w, mid, children, index);
      ManifestReady(w, mid, name, tag, index);
      ReadyAppend(w, blobs, pushes, ManifestOps(w, name, tag, index));
  }

  lemma IndexComplete(w: World, blobs: map<string, Content>, children: seq<Image>, index: Content)
    requires CollisionFree(w) && Matching(w, blobs)
    requires AllDescribed(w, children) && AllComplete(w, blobs, children)
    requires w.refs(index) == IndexRefs(seq(|children|, i requires 0 <= i < |children| => w.sum(children[i].manifest)))
    ensures Complete(w, blobs[BlobFile(w, index) := index], index)
  {
    var all := blobs[BlobFile(w, index) := index];
    FilingOnlyAdds(w, blobs, index);
    assert Stored(all, w.sum(index));
    forall i | 0 <= i < |children|
      ensures Stored(all, w.sum(children[i].manifest))
      ensures ImageStored(all, w.refs(all[BlobFile(w, children[i].manifest)]))
    {
      var p := BlobFile(w, children[i].manifest);
      assert Stored(blobs, w.sum(children[i].manifest));
      SameFileSameContent(w, blobs[p], children[i].manifest);
      assert ImageStored(blobs, w.refs(children[i].manifest));
    }
  }
}
