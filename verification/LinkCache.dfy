/** The caching layer of pkg/builder/cache_file_layer.go: a memo of digest, diff ID and size that
    outlives the process and stands in for streaming the layer. */
module LinkCache {
  import opened Prelude
  import opened LinkCodec

  type Files = map<string, string>

  /** A layer object.  `truth` is what its stream computes once it has been consumed. */
  datatype LayerState = LayerState(linkPath: string, truth: LinkInfo, consumed: bool, diffID: Hash, size: int)

  // ----- the three questions, as functions of files and layer -----

  function DigestFiles(files: Files, o: LayerState, io: bool): Files
  {
    if o.consumed && io && o.linkPath !in files then files[o.linkPath := Encode(o.truth)] else files
  }

  /** The link that an unconsumed layer can read; `io` says whether the file system answers. */
  function Link(files: Files, o: LayerState, io: bool): Option<LinkInfo> {
    if io && o.linkPath in files then Decode(files[o.linkPath]) else None
  }

  function DigestLayer(files: Files, o: LayerState, io: bool): LayerState {
    if o.consumed then o
    else
      match Link(files, o, io)
      case Some(i) => o.(size := i.size, diffID := i.diffID)
      case None => o
  }

  function DigestAnswer(files: Files, o: LayerState, io: bool): Option<Hash> {
    if o.consumed then Some(o.truth.digest)
    else
      match Link(files, o, io)
      case Some(i) => Some(i.digest)
      case None => None
  }

  function SizeAnswer(o: LayerState): Option<int> {
    if o.size > 0 then Some(o.size)
    else if o.consumed then Some(o.truth.size)
    else None
  }

  function DiffIDAnswer(o: LayerState): Option<Hash> {
    if o.diffID != NO_HASH then Some(o.diffID)
    else if o.consumed then Some(o.truth.diffID)
    else None
  }

  // ----- the objects -----

  /** The directory of link files, shared by all layers. */
  class LinkFiles {
    var files: Files

    constructor ()
      ensures files == map[]
    {
      files := map[];
    }

    /** `encodeLinkInfo`. */
    method Write(path: string, info: LinkInfo)
      modifies this
      ensures files == old(files)[path := Encode(info)]
    {
      files := files[path := Encode(info)];
    }

    /** `decodeLinkInfo`. */
    method Read(path: string) returns (info: Option<LinkInfo>)
      ensures info == if path in files then Decode(files[path]) else None
    {
      if path !in files {
        return None;
      }
      info := Decode(files[path]);
    }
  }

  class CacheFileLayer {
    const linkPath: string
    const truth: LinkInfo
    var consumed: bool
    var diffID: Hash
    var size: int

    constructor (linkPath: string, truth: LinkInfo)
      ensures View() == LayerState(linkPath, truth, false, NO_HASH, 0)
    {
      this.linkPath := linkPath;
      this.truth := truth;
      consumed := false;
      diffID := NO_HASH;
      size := 0;
    }

    function View(): LayerState
      reads this
    {
      LayerState(linkPath, truth, consumed, diffID, size)
    }

    /** The stream has been read to its end. */
    method Consume()
      modifies this
      ensures View() == old(View()).(consumed := true)
    {
      consumed := true;
    }

    /** `Digest`: a computed layer writes its link if there is none; any other layer tries to read it. */
    method Digest(links: LinkFiles, io: bool) returns (r: Option<Hash>)
      modifies this, links
      ensures r == DigestAnswer(old(links.files), old(View()), io)
      ensures View() == DigestLayer(old(links.files), old(View()), io)
      ensures links.files == DigestFiles(old(links.files), old(View()), io)
    {
      if consumed {
        if io && linkPath !in links.files {
          links.Write(linkPath, truth);
        }
        return Some(truth.digest);
      }
      if io {
        var info := links.Read(linkPath);
        if info.Some? {
          size := info.value.size;
          diffID := info.value.diffID;
          return Some(info.value.digest);
        }
      }
      return None;
    }

    method Size() returns (r: Option<int>)
      ensures r == SizeAnswer(View())
    {
      if size > 0 {
        return Some(size);
      }
      return if consumed then Some(truth.size) else None;
    }

    method DiffID() returns (r: Option<Hash>)
      ensures r == DiffIDAnswer(View())
    {
      if diffID != NO_HASH {
        return Some(diffID);
      }
      return if consumed then Some(truth.diffID) else None;
    }
  }

  // ----- any sequence of uses -----

  datatype Use =
    | NewLayer(linkPath: string)
    | Consume(i: nat)
    | CallDigest(i: nat, io: bool)
    | CallSize(i: nat)
    | CallDiffID(i: nat)
    | Restart                       // the objects are gone, the files stay

  datatype Cache = Cache(files: Files, layers: seq<LayerState>)

  /** One use.  Layers with the same link path stand for the same content, so `truth` is a
      function of the path. */
  function Do(c: Cache, u: Use, truth: string -> LinkInfo): Cache
  {
    match u
    case NewLayer(p) => c.(layers := c.layers + [LayerState(p, truth(p), false, NO_HASH, 0)])
    case Consume(i) => if i < |c.layers| then c.(layers := c.layers[i := c.layers[i].(consumed := true)]) else c
    case CallDigest(i, io) =>
      if i < |c.layers| then
        Cache(DigestFiles(c.files, c.layers[i], io), c.layers[i := DigestLayer(c.files, c.layers[i], io)])
      else c
    case CallSize(_) => c
    case CallDiffID(_) => c
    case Restart => c.(layers := [])
  }

  ghost predicate Sound(truth: string -> LinkInfo) {
    forall p :: ValidInfo(truth(p))
  }

  ghost predicate LayerFits(o: LayerState, truth: string -> LinkInfo) {
    && o.truth == truth(o.linkPath) && ValidInfo(o.truth)
    && (o.size > 0 ==> o.size == o.truth.size)
    && (o.diffID != NO_HASH ==> o.diffID == o.truth.diffID)
  }

  ghost predicate FilesTrue(files: Files, truth: string -> LinkInfo) {
    forall p :: p in files ==> Decode(files[p]) == Some(truth(p))
  }

  /** Every link file tells the truth about its path, and every layer remembers only the truth. */
  ghost predicate Inv(c: Cache, truth: string -> LinkInfo) {
    && FilesTrue(c.files, truth)
    && (forall i :: 0 <= i < |c.layers| ==> LayerFits(c.layers[i], truth))
  }

  ghost predicate Kept(before: Files, now: Files) {
    forall p :: p in before ==> p in now && now[p] == before[p]
  }

  lemma LinkAdded(files: Files, p: string, text: string, truth: string -> LinkInfo)
    requires FilesTrue(files, truth) && p !in files && Decode(text) == Some(truth(p))
    ensures FilesTrue(files[p := text], truth) && Kept(files, files[p := text])
  {
  }

  lemma DigestKeepsFiles(files: Files, o: LayerState, io: bool, truth: string -> LinkInfo)
    requires FilesTrue(files, truth) && LayerFits(o, truth)
    ensures FilesTrue(DigestFiles(files, o, io), truth) && Kept(files, DigestFiles(files, o, io))
  {
    if DigestFiles(files, o, io) != files {
      LinkRoundTrip(o.truth);
      LinkAdded(files, o.linkPath, Encode(o.truth), truth);
    }
  }

  lemma DoKeepsInv(c: Cache, u: Use, truth: string -> LinkInfo)
    requires Sound(truth) && Inv(c, truth)
    ensures Inv(Do(c, u, truth), truth)
    ensures Kept(c.files, Do(c, u, truth).files)
  {
    if u.CallDigest? && u.i < |c.layers| {
      DigestKeepsFiles(c.files, c.layers[u.i], u.io, truth);
    }
  }

  /** The caches along a sequence of uses, from an empty link directory and no layers. */
  ghost predicate Run(caches: seq<Cache>, uses: seq<Use>, truth: string -> LinkInfo) {
    && |caches| == |uses| + 1
    && caches[0] == Cache(map[], [])
    && (forall i :: 0 <= i < |uses| ==> UsedAt(caches, uses, truth, i))
  }

  ghost predicate UsedAt(caches: seq<Cache>, uses: seq<Use>, truth: string -> LinkInfo, i: nat)
    requires i < |uses| && i + 1 < |caches|
  {
    caches[i + 1] == Do(caches[i], uses[i], truth)
  }

  lemma RunStep(caches: seq<Cache>, uses: seq<Use>, truth: string -> LinkInfo, i: nat)
    requires Sound(truth) && Run(caches, uses, truth) && i < |uses| && Inv(caches[i], truth)
    ensures Inv(caches[i + 1], truth) && Kept(caches[i].files, caches[i + 1].files)
  {
    assert UsedAt(caches, uses, truth, i);
    DoKeepsInv(caches[i], uses[i], truth);
  }

  lemma RunKeepsInv(caches: seq<Cache>, uses: seq<Use>, truth: string -> LinkInfo, i: nat)
    requires Sound(truth) && Run(caches, uses, truth) && i < |caches|
    ensures Inv(caches[i], truth)
  {
    var inv: Cache -> bool := c => Inv(c, truth);
    forall k | 0 <= k < i
      ensures Inherited(inv, caches, k)
    {
      if inv(caches[k]) {
        RunStep(caches, uses, truth, k);
      }
    }
    Along(inv, caches, 0, i);
  }

  lemma RunKeepsFiles(caches: seq<Cache>, uses: seq<Use>, truth: string -> LinkInfo, i: nat)
    requires Sound(truth) && Run(caches, uses, truth) && i + 1 < |caches|
    ensures Kept(caches[i].files, caches[i + 1].files)
  {
    RunKeepsInv(caches, uses, truth, i);
    RunStep(caches, uses, truth, i);
  }

  /** Whatever has been done before, on any number of layers and across restarts, every answer
      that a layer gives is the true one. */
  lemma AnswersAreTrue(caches: seq<Cache>, uses: seq<Use>, truth: string -> LinkInfo, i: nat, k: nat, io: bool)
    requires Sound(truth) && Run(caches, uses, truth) && i < |caches| && k < |caches[i].layers|
    ensures var c := caches[i];
            var o := c.layers[k];
            && o.truth == truth(o.linkPath)
            && (DigestAnswer(c.files, o, io).Some? ==> DigestAnswer(c.files, o, io).value == o.truth.digest)
            && (SizeAnswer(o).Some? ==> SizeAnswer(o).value == o.truth.size)
            && (DiffIDAnswer(o).Some? ==> DiffIDAnswer(o).value == o.truth.diffID)
  {
    RunKeepsInv(caches, uses, truth, i);
    assert LayerFits(caches[i].layers[k], truth);
  }

  /** A link that has been written is never changed or removed. */
  lemma {:induction false} LinksNeverChange(caches: seq<Cache>, uses: seq<Use>, truth: string -> LinkInfo,
                                            i: nat, j: nat, p: string)
    requires Sound(truth) && Run(caches, uses, truth) && i <= j < |caches| && p in caches[i].files
    ensures p in caches[j].files && caches[j].files[p] == caches[i].files[p]
    decreases j
  {
    if i < j {
      LinksNeverChange(caches, uses, truth, i, j - 1, p);
      RunKeepsFiles(caches, uses, truth, j - 1);
    }
  }

  /** Once a layer's digest has been answered from its stream, a layer with the same link answers
      its digest from the file at any later time, restarts included, without being consumed. */
  lemma WrittenLinkAnswersLater(caches: seq<Cache>, uses: seq<Use>, truth: string -> LinkInfo,
                                i: nat, k: nat, j: nat, l: nat)
    requires Sound(truth) && Run(caches, uses, truth) && i < j < |caches|
    requires uses[i] == CallDigest(k, true) && k < |caches[i].layers| && caches[i].layers[k].consumed
    requires l < |caches[j].layers| && caches[j].layers[l].linkPath == caches[i].layers[k].linkPath
    ensures var o := caches[j].layers[l];
            && DigestAnswer(caches[j].files, o, true) == Some(o.truth.digest)
            && DigestLayer(caches[j].files, o, true).consumed == o.consumed
  {
    var p := caches[i].layers[k].linkPath;
    assert UsedAt(caches, uses, truth, i);
    assert p in caches[i + 1].files;
    LinksNeverChange(caches, uses, truth, i + 1, j, p);
    RunKeepsInv(caches, uses, truth, j);
    assert LayerFits(caches[j].layers[l], truth);
  }

  /** After `Digest` has found the link, an unconsumed layer answers its diff ID, and it answers
      its size exactly when that size is positive. */
  lemma LinkedLayerAnswersAll(c: Cache, truth: string -> LinkInfo, k: nat)
    requires Sound(truth) && Inv(c, truth) && k < |c.layers|
    requires !c.layers[k].consumed && c.layers[k].linkPath in c.files
    ensures var o := c.layers[k];
            var o' := DigestLayer(c.files, o, true);
            && DigestAnswer(c.files, o, true) == Some(o.truth.digest)
            && !o'.consumed
            && DiffIDAnswer(o') == Some(o.truth.diffID)
            && (SizeAnswer(o') == Some(o.truth.size) <==> o.truth.size > 0)
  {
    assert LayerFits(c.layers[k], truth);
  }

  /** When the questions are answered at all: a link without a positive size, or one that
      `Digest` has not read yet, does not answer `Size`. */
  lemma AnsweredExactlyWhen(c: Cache, truth: string -> LinkInfo, k: nat, io: bool)
    requires Sound(truth) && Inv(c, truth) && k < |c.layers|
    ensures var o := c.layers[k];
            && (DigestAnswer(c.files, o, io).Some? <==> o.consumed || (io && o.linkPath in c.files))
            && (SizeAnswer(o).Some? <==> o.consumed || o.size > 0)
            && (DiffIDAnswer(o).Some? <==> o.consumed || o.diffID != NO_HASH)
  {
    assert LayerFits(c.layers[k], truth);
  }

  /** Two different contents behind one link path: the second layer answers with the first one's
      digest.  Truthfulness needs link paths that tell contents apart. */
  lemma SharedPathWitness(first: LinkInfo, second: LinkInfo, p: string)
    requires ValidInfo(first) && ValidInfo(second) && first.digest != second.digest
    ensures var a := LayerState(p, first, true, NO_HASH, 0);
            var b := LayerState(p, second, false, NO_HASH, 0);
            var files := DigestFiles(map[], a, true);
            DigestAnswer(files, b, true) == Some(first.digest) && first.digest != b.truth.digest
  {
    LinkRoundTrip(first);
  }
}
