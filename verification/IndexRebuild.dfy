/** The build behind a request: `buildAndSave` of pkg/handler/handler.go after it has the lock, with
    `mutateImage` of pkg/handler/mutates.go and the index object of pkg/builder/image_index.go. */
module IndexRebuild {
  import opened Prelude
  import opened Substitute
  import opened Rules
  import opened BlobStore
  import opened LocalPusher

  datatype Descriptor = Descriptor(digest: string, platform: Option<Platform>)

  /** What comes from other libraries: images of the base by digest, the effect of one mutate on an
      image (`None` for an error), and the bytes of an index manifest. */
  datatype Toolkit = Toolkit(
    lookup: string -> Option<Image>,
    apply: (Image, Mutate) -> Option<Image>,
    encode: seq<Descriptor> -> Content)

  /** The toolkit's images describe themselves and an index manifest lists its entries. */
  ghost predicate Honest(w: World, tools: Toolkit) {
    && (forall d :: tools.lookup(d).Some? ==> Describes(w, tools.lookup(d).value))
    && (forall i, m :: Describes(w, i) && tools.apply(i, m).Some? ==> Describes(w, tools.apply(i, m).value))
    && (forall ds: seq<Descriptor> :: w.refs(tools.encode(ds)) ==
                     IndexRefs(seq(|ds|, i requires 0 <= i < |ds| => ds[i].digest)))
  }

  datatype BuildError = BadImage | BadMutate | UnknownMutate | PushFailed

  // ----- mutates -----

  /** All mutates applied in order. */
  function ApplyAll(tools: Toolkit, image: Image, mutates: seq<Mutate>): Option<Image> {
    if mutates == [] then Some(image)
    else
      match ApplyAll(tools, image, mutates[..|mutates| - 1])
      case None => None
      case Some(i) => tools.apply(i, mutates[|mutates| - 1])
  }

  lemma {:induction false} ApplyAllFails(tools: Toolkit, image: Image, mutates: seq<Mutate>, n: nat)
    requires n <= |mutates| && ApplyAll(tools, image, mutates[..n]) == None
    ensures ApplyAll(tools, image, mutates) == None
    decreases |mutates| - n
  {
    if n < |mutates| {
      assert mutates[..n + 1][..n] == mutates[..n];
      ApplyAllFails(tools, image, mutates, n + 1);
    } else {
      assert mutates[..n] == mutates;
    }
  }

  lemma {:induction false} ApplyAllDescribes(w: World, tools: Toolkit, image: Image, mutates: seq<Mutate>)
    requires Honest(w, tools) && Describes(w, image)
    ensures ApplyAll(tools, image, mutates).Some? ==> Describes(w, ApplyAll(tools, image, mutates).value)
  {
    if mutates != [] {
      ApplyAllDescribes(w, tools, image, mutates[..|mutates| - 1]);
    }
  }

  /** The images on the way from the base to the result: each mutate applied to what the one before
      it left. */
  ghost predicate Stages(tools: Toolkit, mutates: seq<Mutate>, stages: seq<Image>) {
    |stages| == |mutates| + 1 && forall i :: 0 <= i < |mutates| ==> StageAt(tools, mutates, stages, i)
  }

  ghost predicate StageAt(tools: Toolkit, mutates: seq<Mutate>, stages: seq<Image>, i: nat)
    requires |stages| == |mutates| + 1 && i < |mutates|
  {
    tools.apply(stages[i], mutates[i]) == Some(stages[i + 1])
  }

  lemma {:induction false} StagesAreApplied(tools: Toolkit, mutates: seq<Mutate>, stages: seq<Image>, n: nat)
    requires Stages(tools, mutates, stages) && n <= |mutates|
    ensures ApplyAll(tools, stages[0], mutates[..n]) == Some(stages[n])
  {
    if n > 0 {
      StagesAreApplied(tools, mutates, stages, n - 1);
      assert StageAt(tools, mutates, stages, n - 1);
      assert mutates[..n][..n - 1] == mutates[..n - 1];
    }
  }

  lemma {:induction false} AppliedInStages(tools: Toolkit, image: Image, mutates: seq<Mutate>) returns (stages: seq<Image>)
    requires ApplyAll(tools, image, mutates).Some?
    ensures Stages(tools, mutates, stages) && stages[0] == image
    ensures stages[|mutates|] == ApplyAll(tools, image, mutates).value
  {
    if mutates == [] {
      stages := [image];
    } else {
      var k := |mutates| - 1;
      var before := AppliedInStages(tools, image, mutates[..k]);
      stages := before + [ApplyAll(tools, image, mutates).value];
      forall i | 0 <= i < |mutates|
        ensures StageAt(tools, mutates, stages, i)
      {
        assert i < k ==> StageAt(tools, mutates[..k], before, i);
      }
    }
  }

  /** The mutates are applied in their order, none left out and none twice. */
  lemma AppliedInOrder(tools: Toolkit, image: Image, mutates: seq<Mutate>, out: Image)
    ensures ApplyAll(tools, image, mutates) == Some(out) <==>
            exists stages :: Stages(tools, mutates, stages) && stages[0] == image && stages[|mutates|] == out
  {
    if ApplyAll(tools, image, mutates) == Some(out) {
      var stages := AppliedInStages(tools, image, mutates);
    }
    forall stages | Stages(tools, mutates, stages) && stages[0] == image && stages[|mutates|] == out
      ensures ApplyAll(tools, image, mutates) == Some(out)
    {
      StagesAreApplied(tools, mutates, stages, |mutates|);
      assert mutates[..|mutates|] == mutates;
    }
  }

  /** `mutateImage`. */
  method MutateImage(tools: Toolkit, image: Image, mutates: seq<Mutate>) returns (r: Result<Image, BuildError>)
    ensures (forall i :: 0 <= i < |mutates| ==> Known(mutates[i])) ==>
              r == match ApplyAll(tools, image, mutates) case Some(out) => Ok(out) case None => Err(BadMutate)
    ensures (exists i :: 0 <= i < |mutates| && !Known(mutates[i])) ==> r.Err?
    ensures r.Ok? ==> ApplyAll(tools, image, mutates) == Some(r.value)
  {
    var current := image;
    for i := 0 to |mutates|
      invariant forall j :: 0 <= j < i ==> Known(mutates[j])
      invariant ApplyAll(tools, image, mutates[..i]) == Some(current)
    {
      assert mutates[..i + 1][..i] == mutates[..i];
      if !Known(mutates[i]) {
        return Err(UnknownMutate);
      }
      var next := tools.apply(current, mutates[i]);
      if next == None {
        ApplyAllFails(tools, image, mutates, i + 1);
        return Err(BadMutate);
      }
      current := next.value;
    }
    assert mutates[..|mutates|] == mutates;
    r := Ok(current);
  }

  // ----- the index under construction -----

  class ImageIndex {
    const baseImageIndex: seq<Descriptor>
    var imageIndex: seq<Descriptor>

    constructor (base: seq<Descriptor>)
      ensures baseImageIndex == base && imageIndex == base
    {
      baseImageIndex := base;
      imageIndex := base;
    }

    method ClearImage()
      modifies this
      ensures imageIndex == []
    {
      imageIndex := [];
    }

    method AppendImage(w: World, image: Image, platform: Platform)
      modifies this
      ensures imageIndex == old(imageIndex) + [Descriptor(w.sum(image.manifest), Some(platform))]
    {
      imageIndex := imageIndex + [Descriptor(w.sum(image.manifest), Some(platform))];
    }
  }

  // ----- which entries, and what becomes of them -----

  /** The filter compares operating system and architecture; it does not look at the variant. */
  predicate Allowed(ps: seq<Platform>, platform: Platform) {
    exists p :: p in ps && p.os == platform.os && p.architecture == platform.architecture
  }

  function Filter(rule: Rule): Option<seq<Platform>> {
    if rule.platforms == [] then None else Some(rule.platforms)
  }

  predicate Passes(ps: Option<seq<Platform>>, d: Descriptor) {
    d.platform.Some? && (ps.Some? ==> Allowed(ps.value, d.platform.value))
  }

  /** The base entries with a platform that passes the filter, in base order. */
  function Selected(ps: Option<seq<Platform>>, base: seq<Descriptor>): (r: seq<Descriptor>)
    ensures forall i :: 0 <= i < |r| ==> Passes(ps, r[i])
  {
    if base == [] then []
    else
      var k := |base| - 1;
      Selected(ps, base[..k]) + if Passes(ps, base[k]) then [base[k]] else []
  }

  /** The image built for one entry from the captures alone, whatever was built before it. */
  function Child(tools: Toolkit, rule: Rule, params: map<string, string>, d: Descriptor): Option<Image> {
    match tools.lookup(d.digest)
    case None => None
    case Some(image) => ApplyAll(tools, image, FillMutates(rule.mutates, PlatformParams(params, d.platform)))
  }

  /** The entries of the rebuilt index. */
  ghost predicate Rebuilt(w: World, tools: Toolkit, rule: Rule, params: map<string, string>,
                          chosen: seq<Descriptor>, out: seq<Descriptor>) {
    && |out| == |chosen|
    && forall i :: 0 <= i < |chosen| ==>
         var child := Child(tools, rule, params, chosen[i]);
         child.Some? && out[i] == Descriptor(w.sum(child.value.manifest), chosen[i].platform)
  }

  /** Templates without nested braces and parameters that open none: what a placeholder means does
      not depend on the order of a map. */
  ghost predicate Unambiguous(rule: Rule, params: map<string, string>, base: seq<Descriptor>) {
    && FlatMutates(rule.mutates) && Plain(params)
    && forall i :: 0 <= i < |base| && base[i].platform.Some? ==> PlainPlatform(base[i].platform)
  }

  ghost predicate SamePlatforms(chosen: seq<Descriptor>, out: seq<Descriptor>) {
    |out| == |chosen| && forall i :: 0 <= i < |chosen| ==> out[i].platform == chosen[i].platform
  }

  // ----- one entry -----

  /** Pushing the children has come from one store to the other, and to its end or to a failure. */
  ghost predicate Pushed(w: World, name: string, before: Store, now: Store, children: seq<Image>, ok: bool) {
    Perform(w, before, ChildrenOps(w, name, children)) == (now, ok)
  }

  /** Some image has a layer without content. */
  ghost predicate AnEmptyLayer(images: seq<Image>) {
    exists i, l :: 0 <= i < |images| && 0 <= l < |images[i].layers| && |images[i].layers[l].content| == 0
  }

  /** What building one entry does, from parameters `now` and store `cur` to store `after`.  No tag
      is written; `pushed` lists the image once its push has begun. */
  ghost predicate ChildTurn(w: World, tools: Toolkit, rule: Rule, name: string, d: Descriptor, now: map<string, string>,
                            cur: Store, after: Store, r: Result<Image, BuildError>, pushed: seq<Image>) {
    && r != Err(UnknownMutate)
    && (FlatMutates(rule.mutates) && Plain(PlatformParams(now, d.platform)) ==>
          && (r.Ok? ==> Child(tools, rule, now, d) == Some(r.value) && BuiltFor(tools, rule, now, d, r.value))
          && (r == Err(BadImage) || r == Err(BadMutate) ==> Child(tools, rule, now, d) == None))
    && (if r.Ok? then pushed == [r.value] else |pushed| <= 1)
    && (r == Err(PushFailed) ==> AnEmptyLayer(pushed))
    && Pushed(w, name, cur, after, pushed, r != Err(PushFailed))
    && after.manifests == cur.manifests
    && (Honest(w, tools) ==> AllDescribed(w, pushed))
  }

  /** The lookup and the mutates of one entry, with parameters `now`.  Where placeholders are
      unambiguous, the image is the one for the entry's own platform, and an error means that there is
      none. */
  ghost predicate Mutated(tools: Toolkit, rule: Rule, now: map<string, string>, d: Descriptor,
                          r: Result<Image, BuildError>) {
    && (if tools.lookup(d.digest) == None then r == Err(BadImage) else r.Ok? || r == Err(BadMutate))
    && (r.Ok? ==> FromToolkit(tools, d, r.value))
    && (FlatMutates(rule.mutates) && Plain(PlatformParams(now, d.platform)) ==>
          if r.Ok? then Child(tools, rule, now, d) == Some(r.value) && BuiltFor(tools, rule, now, d, r.value)
          else Child(tools, rule, now, d) == None)
  }

  ghost predicate FromToolkit(tools: Toolkit, d: Descriptor, image: Image) {
    tools.lookup(d.digest).Some? && exists ms :: ApplyAll(tools, tools.lookup(d.digest).value, ms) == Some(image)
  }

  /** The base image of the entry, mutated by the rule's mutates, in which GOOS and GOARCH stand for the
      entry's own operating system and architecture and every other placeholder for its capture. */
  ghost predicate BuiltFor(tools: Toolkit, rule: Rule, captures: map<string, string>, d: Descriptor, image: Image) {
    && tools.lookup(d.digest).Some?
    && exists params :: ForPlatform(params, captures, d.platform)
                        && ApplyAll(tools, tools.lookup(d.digest).value, FillMutates(rule.mutates, params)) == Some(image)
  }

  lemma ChildIsBuiltFor(tools: Toolkit, rule: Rule, captures: map<string, string>, d: Descriptor, image: Image)
    ensures Child(tools, rule, captures, d) == Some(image) <==> BuiltFor(tools, rule, captures, d, image)
  {
    var own := PlatformParams(captures, d.platform);
    PlatformParamsExactly(own, captures, d.platform);
    forall params | ForPlatform(params, captures, d.platform)
      ensures params == own
    {
      PlatformParamsExactly(params, captures, d.platform);
    }
  }

  lemma ToolkitImagesDescribe(w: World, tools: Toolkit, d: Descriptor, image: Image)
    requires Honest(w, tools) && FromToolkit(tools, d, image)
    ensures Describes(w, image)
  {
    var ms :| ApplyAll(tools, tools.lookup(d.digest).value, ms) == Some(image);
    ApplyAllDescribes(w, tools, tools.lookup(d.digest).value, ms);
  }

  /** Look up and mutate the image of one entry.  The action's parameters are overwritten with the
      entry's platform. */
  method MutateEntry(tools: Toolkit, action: Action, d: Descriptor) returns (r: Result<Image, BuildError>)
    modifies action
    ensures action.params == old(action.params) || ForPlatform(action.params, old(action.params), d.platform)
    ensures r.Ok? ==> ForPlatform(action.params, old(action.params), d.platform)
    ensures Mutated(tools, action.rule, old(action.params), d, r)
  {
    var image := tools.lookup(d.digest);
    if image == None {
      return Err(BadImage);
    }
    var mutates := action.GetMutates(d.platform);
    r := MutateImage(tools, image.value, mutates);
    if r.Ok? {
      ChildIsBuiltFor(tools, action.rule, old(action.params), d, r.value);
    }
  }

  lemma PushEndsTurn(w: World, tools: Toolkit, rule: Rule, name: string, d: Descriptor, now: map<string, string>,
                     cur: Store, after: Store, image: Image, ok: bool)
    requires Mutated(tools, rule, now, d, Ok(image))
    requires Perform(w, cur, ImageOps(w, name, "", image)) == (after, ok)
    requires PushReport(w, cur, after, name, "", image, ok)
    ensures ChildTurn(w, tools, rule, name, d, now, cur, after, if ok then Ok(image) else Err(PushFailed), [image])
  {
    OneChild(w, name, image);
    if Honest(w, tools) {
      ToolkitImagesDescribe(w, tools, d, image);
    }
    if !ok {
      EmptyLayerStops(w, cur, after, name, "", image);
    }
  }

  lemma EmptyLayerStops(w: World, before: Store, after: Store, name: string, tag: string, image: Image)
    requires PushReport(w, before, after, name, tag, image, false)
    ensures AnEmptyLayer([image])
  {
    var l :| 0 <= l < |image.layers| && |image.layers[l].content| == 0;
    assert [image][0].layers[l] == image.layers[l];
  }

  /** Look up, mutate and push the image of one entry. */
  method BuildChild(tools: Toolkit, action: Action, pusher: LocalPusher, name: string, d: Descriptor)
    returns (r: Result<Image, BuildError>, ghost pushed: seq<Image>)
    modifies action, pusher
    ensures action.params == old(action.params) || ForPlatform(action.params, old(action.params), d.platform)
    ensures r.Ok? ==> ForPlatform(action.params, old(action.params), d.platform)
    ensures ChildTurn(pusher.w, tools, action.rule, name, d, old(action.params),
                      old(pusher.Current()), pusher.Current(), r, pushed)
  {
    r := MutateEntry(tools, action, d);
    if r.Err? {
      return r, [];
    }
    var ok := pusher.PushImageWithIndex(name, r.value);
    PushEndsTurn(pusher.w, tools, action.rule, name, d, old(action.params),
                 old(pusher.Current()), pusher.Current(), r.value, ok);
    pushed := [r.value];
    if !ok {
      r := Err(PushFailed);
    }
  }

  lemma OneChild(w: World, name: string, image: Image)
    ensures ChildrenOps(w, name, [image]) == ImageOps(w, name, "", image)
  {
    assert [image][..0] == [];
    assert [] + ImageOps(w, name, "", image) == ImageOps(w, name, "", image);
  }

  // ----- the whole index -----

  /** Parameters that differ from the captures only by an earlier platform. */
  ghost predicate SameCaptures(now: map<string, string>, params: map<string, string>) {
    forall p :: PlatformParams(now, p) == PlatformParams(params, p)
  }

  lemma SameCapturesStep(now: map<string, string>, params: map<string, string>, p: Option<Platform>)
    requires SameCaptures(now, params)
    ensures SameCaptures(PlatformParams(now, p), params)
  {
    forall q
      ensures PlatformParams(PlatformParams(now, p), q) == PlatformParams(params, q)
    {
      PlatformOverwrites(now, p, q);
    }
  }

  /** The images behind the entries of the index so far. */
  ghost predicate Behind(w: World, out: seq<Descriptor>, children: seq<Image>) {
    |out| == |children| && forall i :: 0 <= i < |out| ==> out[i].digest == w.sum(children[i].manifest)
  }

  lemma MorePushed(w: World, name: string, before: Store, mid: Store, now: Store,
                   children: seq<Image>, more: seq<Image>, ok: bool)
    requires Pushed(w, name, before, mid, children, true) && Pushed(w, name, mid, now, more, ok) && |more| <= 1
    ensures Pushed(w, name, before, now, children + more, ok)
  {
    if more == [] {
      assert children + more == children;
    } else {
      var image := more[0];
      assert more == [image] && (children + more)[..|children|] == children;
      OneChild(w, name, image);
      PerformAppend(w, before, ChildrenOps(w, name, children), ImageOps(w, name, "", image));
    }
  }

  /** However far the pushing of children gets, the store keeps its promise. */
  lemma PushedKeepsClosed(w: World, name: string, before: Store, now: Store, children: seq<Image>, ok: bool)
    requires CollisionFree(w) && Closed(w, before) && AllDescribed(w, children)
    requires Pushed(w, name, before, now, children, ok)
    ensures Closed(w, now)
  {
    ChildrenReady(w, before.blobs, name, children);
    PerformKeepsClosed(w, before, ChildrenOps(w, name, children));
  }

  lemma IndexIsValid(w: World, tools: Toolkit, name: string, tag: string, out: seq<Descriptor>, children: seq<Image>)
    requires Honest(w, tools) && Behind(w, out, children) && AllDescribed(w, children)
    ensures ValidBuild(w, Multi(name, tag, children, tools.encode(out)))
  {
    assert seq(|out|, i requires 0 <= i < |out| => out[i].digest)
        == seq(|children|, i requires 0 <= i < |children| => w.sum(children[i].manifest));
  }

  /** A rebuild whose children are pushed and whose index is published has done exactly the planned
      operations of a multi-platform build. */
  lemma RebuildIsPlanned(w: World, name: string, tag: string, before: Store, mid: Store,
                         children: seq<Image>, index: Content)
    requires Pushed(w, name, before, mid, children, true)
    ensures Perform(w, before, BuildOps(w, Multi(name, tag, children, index)))
            == (SavedManifest(w, mid, name, tag, index), true)
  {
    ManifestTags(w, mid, name, tag, index);
    PerformAppend(w, before, ChildrenOps(w, name, children), ManifestOps(w, name, tag, index));
  }

  lemma PlannedKeepsClosed(w: World, before: Store, b: Build)
    requires CollisionFree(w) && Closed(w, before) && ValidBuild(w, b)
    ensures Closed(w, Perform(w, before, BuildOps(w, b)).0)
  {
    BuildReady(w, before.blobs, b);
    PerformKeepsClosed(w, before, BuildOps(w, b));
  }

  lemma SkipEntry(ps: Option<seq<Platform>>, base: seq<Descriptor>, n: nat)
    requires n < |base|
    ensures Selected(ps, base[..n + 1]) == Selected(ps, base[..n]) + if Passes(ps, base[n]) then [base[n]] else []
  {
    assert base[..n + 1][..n] == base[..n];
  }

  /** What a rebuild starts from. */
  datatype Job = Job(w: World, tools: Toolkit, rule: Rule, params: map<string, string>, base: seq<Descriptor>,
                     name: string, start: Store)

  /** The entries so far: the selected ones in order, each built for its own platform from the
      captures. */
  ghost predicate Lists(j: Job, n: nat, out: seq<Descriptor>)
    requires n <= |j.base|
  {
    var chosen := Selected(Filter(j.rule), j.base[..n]);
    && SamePlatforms(chosen, out)
    && (Unambiguous(j.rule, j.params, j.base) ==> Rebuilt(j.w, j.tools, j.rule, j.params, chosen, out))
  }

  /** The rebuild has come to entry `n`, with parameters `now` and the store as `cur`. */
  ghost predicate At(j: Job, n: nat, now: map<string, string>, cur: Store, out: seq<Descriptor>, children: seq<Image>) {
    && n <= |j.base| && SameCaptures(now, j.params) && Lists(j, n, out)
    && Behind(j.w, out, children) && Pushed(j.w, j.name, j.start, cur, children, true)
    && cur.manifests == j.start.manifests
    && (Honest(j.w, j.tools) ==> AllDescribed(j.w, children))
  }

  /** The index lists exactly the base entries with a platform, in base order, that some configured
      platform agrees with in operating system and architecture, or all of them when no platform is
      configured; and each of them built for its own platform. */
  ghost predicate ListedAt(j: Job, out: seq<Descriptor>, places: seq<nat>) {
    && Picks(places, |j.base|) && |places| == |out|
    && (forall k :: 0 <= k < |j.base| ==>
          (k in places <==>
            match j.base[k].platform
            case None => false
            case Some(platform) =>
              j.rule.platforms == []
              || exists p :: p in j.rule.platforms && p.os == platform.os && p.architecture == platform.architecture))
    && (forall i :: 0 <= i < |out| ==> out[i].platform == j.base[places[i]].platform)
    && (Unambiguous(j.rule, j.params, j.base) ==>
          forall i :: 0 <= i < |out| ==> BuiltInto(j, j.base[places[i]], out[i]))
  }

  ghost predicate BuiltInto(j: Job, d: Descriptor, entry: Descriptor) {
    exists image :: BuiltFor(j.tools, j.rule, j.params, d, image) && entry.digest == j.w.sum(image.manifest)
  }

  function PassFlags(ps: Option<seq<Platform>>, base: seq<Descriptor>): (flags: seq<bool>)
    ensures |flags| == |base| && forall i :: 0 <= i < |base| ==> flags[i] == Passes(ps, base[i])
  {
    seq(|base|, i requires 0 <= i < |base| => Passes(ps, base[i]))
  }

  lemma {:induction false} SelectedInPlace(ps: Option<seq<Platform>>, base: seq<Descriptor>)
    ensures var places := PlacesOf(PassFlags(ps, base));
            && |Selected(ps, base)| == |places|
            && forall i :: 0 <= i < |places| ==> places[i] < |base| && Selected(ps, base)[i] == base[places[i]]
  {
    if base != [] {
      var k := |base| - 1;
      SelectedInPlace(ps, base[..k]);
      assert PassFlags(ps, base)[..k] == PassFlags(ps, base[..k]);
      var before := PlacesOf(PassFlags(ps, base[..k]));
      assert forall i :: 0 <= i < |before| ==> base[..k][before[i]] == base[before[i]];
    }
  }

  lemma PassesExactly(j: Job, d: Descriptor)
    ensures Passes(Filter(j.rule), d) <==>
            match d.platform
            case None => false
            case Some(platform) =>
              j.rule.platforms == []
              || exists p :: p in j.rule.platforms && p.os == platform.os && p.architecture == platform.architecture
  {
  }

  lemma ListedExactly(j: Job, out: seq<Descriptor>) returns (places: seq<nat>)
    requires Lists(j, |j.base|, out)
    ensures ListedAt(j, out, places)
  {
    var ps, flags := Filter(j.rule), PassFlags(Filter(j.rule), j.base);
    places := PlacesOf(flags);
    PlacesOfExactly(flags);
    SelectedInPlace(ps, j.base);
    assert j.base[..|j.base|] == j.base;
    forall k | 0 <= k < |j.base|
      ensures flags[k] <==>
              match j.base[k].platform
              case None => false
              case Some(platform) =>
                j.rule.platforms == []
                || exists p :: p in j.rule.platforms && p.os == platform.os && p.architecture == platform.architecture
    {
      PassesExactly(j, j.base[k]);
    }
    if Unambiguous(j.rule, j.params, j.base) {
      forall i | 0 <= i < |out|
        ensures BuiltInto(j, j.base[places[i]], out[i])
      {
        ChildIsBuiltFor(j.tools, j.rule, j.params, j.base[places[i]],
                        Child(j.tools, j.rule, j.params, Selected(ps, j.base)[i]).value);
      }
    }
  }

  /** A rebuild that succeeded.  The index lists the selected entries, it is what the tag holds, and
      the store operations were exactly those of the planned multi-platform build. */
  ghost predicate Published(j: Job, tag: string, out: seq<Descriptor>, now: Store, children: seq<Image>) {
    var index := j.tools.encode(out);
    && Lists(j, |j.base|, out)
    && (exists places :: ListedAt(j, out, places))
    && now.manifests == (if Tagged(j.name, tag) then j.start.manifests[LocalManifestPath(j.name, tag) := index]
                         else j.start.manifests)
    && Behind(j.w, out, children)
    && Perform(j.w, j.start, BuildOps(j.w, Multi(j.name, tag, children, index))) == (now, true)
    && (Honest(j.w, j.tools) ==> ValidBuild(j.w, Multi(j.name, tag, children, index)))
    && (CollisionFree(j.w) && Honest(j.w, j.tools) && Closed(j.w, j.start) ==> Closed(j.w, now))
  }

  /** A rebuild that failed.  No tag has changed; when a push was the reason, an image has an empty
      layer, and otherwise some selected entry cannot be built; and the store operations were those of
      the plan, as far as it got. */
  ghost predicate Stopped(j: Job, error: BuildError, now: Store, children: seq<Image>) {
    && now.manifests == j.start.manifests && error != UnknownMutate
    && (error != PushFailed && Unambiguous(j.rule, j.params, j.base) ==>
          exists n :: 0 <= n < |j.base| && Passes(Filter(j.rule), j.base[n])
                      && Child(j.tools, j.rule, j.params, j.base[n]) == None)
    && (error == PushFailed ==> AnEmptyLayer(children))
    && Pushed(j.w, j.name, j.start, now, children, error != PushFailed)
    && (Honest(j.w, j.tools) ==> AllDescribed(j.w, children))
    && (CollisionFree(j.w) && Honest(j.w, j.tools) && Closed(j.w, j.start) ==> Closed(j.w, now))
  }

  lemma AtStart(j: Job)
    ensures At(j, 0, j.params, j.start, [], [])
  {
  }

  lemma AtSkipped(j: Job, n: nat, now: map<string, string>, cur: Store, out: seq<Descriptor>, children: seq<Image>)
    requires n < |j.base| && At(j, n, now, cur, out, children)
    ensures !Passes(Filter(j.rule), j.base[n]) ==> At(j, n + 1, now, cur, out, children)
  {
    SkipEntry(Filter(j.rule), j.base, n);
  }

  lemma OneMoreListed(j: Job, n: nat, now: map<string, string>, out: seq<Descriptor>, c: Image)
    requires n < |j.base| && Passes(Filter(j.rule), j.base[n]) && SameCaptures(now, j.params) && Lists(j, n, out)
    requires FlatMutates(j.rule.mutates) && Plain(PlatformParams(now, j.base[n].platform)) ==>
               Child(j.tools, j.rule, now, j.base[n]) == Some(c)
    ensures Lists(j, n + 1, out + [Descriptor(j.w.sum(c.manifest), j.base[n].platform)])
  {
    SkipEntry(Filter(j.rule), j.base, n);
    PlainForEntry(j.rule, j.params, now, j.base, n);
    assert PlatformParams(now, j.base[n].platform) == PlatformParams(j.params, j.base[n].platform);
  }

  lemma AtBuilt(j: Job, n: nat, now: map<string, string>, cur: Store, out: seq<Descriptor>, children: seq<Image>,
                own: map<string, string>, after: Store, c: Image)
    requires n < |j.base| && At(j, n, now, cur, out, children) && Passes(Filter(j.rule), j.base[n])
    requires ForPlatform(own, now, j.base[n].platform)
    requires ChildTurn(j.w, j.tools, j.rule, j.name, j.base[n], now, cur, after, Ok(c), [c])
    ensures At(j, n + 1, own, after,
               out + [Descriptor(j.w.sum(c.manifest), j.base[n].platform)], children + [c])
  {
    OneMoreListed(j, n, now, out, c);
    PlatformParamsExactly(own, now, j.base[n].platform);
    SameCapturesStep(now, j.params, j.base[n].platform);
    MorePushed(j.w, j.name, j.start, cur, after, children, [c], true);
    OneMoreBehind(j.w, out, children, c, j.base[n].platform);
  }

  lemma OneMoreBehind(w: World, out: seq<Descriptor>, children: seq<Image>, c: Image, platform: Option<Platform>)
    requires Behind(w, out, children)
    ensures Behind(w, out + [Descriptor(w.sum(c.manifest), platform)], children + [c])
    ensures AllDescribed(w, children) && AllDescribed(w, [c]) ==> AllDescribed(w, children + [c])
  {
    assert AllDescribed(w, [c]) ==> Describes(w, [c][0]);
  }

  lemma EmptyLayerBehind(children: seq<Image>, pushed: seq<Image>)
    requires AnEmptyLayer(pushed)
    ensures AnEmptyLayer(children + pushed)
  {
    var i, l :| 0 <= i < |pushed| && 0 <= l < |pushed[i].layers| && |pushed[i].layers[l].content| == 0;
    assert (children + pushed)[|children| + i] == pushed[i];
  }

  lemma AtFailed(j: Job, n: nat, now: map<string, string>, cur: Store, out: seq<Descriptor>, children: seq<Image>,
                 after: Store, error: BuildError, pushed: seq<Image>)
    requires n < |j.base| && At(j, n, now, cur, out, children) && Passes(Filter(j.rule), j.base[n])
    requires ChildTurn(j.w, j.tools, j.rule, j.name, j.base[n], now, cur, after, Err(error), pushed)
    ensures Stopped(j, error, after, children + pushed)
  {
    PlainForEntry(j.rule, j.params, now, j.base, n);
    assert PlatformParams(now, j.base[n].platform) == PlatformParams(j.params, j.base[n].platform);
    MorePushed(j.w, j.name, j.start, cur, after, children, pushed, error != PushFailed);
    if error == PushFailed {
      EmptyLayerBehind(children, pushed);
    }
    StoppedStillClosed(j.w, j.tools, j.name, j.start, after, children + pushed, error != PushFailed);
  }

  lemma AtEnd(j: Job, tag: string, now: map<string, string>, cur: Store, out: seq<Descriptor>, children: seq<Image>)
    requires At(j, |j.base|, now, cur, out, children)
    ensures Published(j, tag, out, SavedManifest(j.w, cur, j.name, tag, j.tools.encode(out)), children)
  {
    var places := ListedExactly(j, out);
    RebuildIsPlanned(j.w, j.name, tag, j.start, cur, children, j.tools.encode(out));
    RebuiltStillClosed(j.w, j.tools, j.name, tag, j.start, out, children);
    if Honest(j.w, j.tools) {
      IndexIsValid(j.w, j.tools, j.name, tag, out, children);
    }
  }

  lemma StoppedStillClosed(w: World, tools: Toolkit, name: string, before: Store, now: Store,
                           children: seq<Image>, ok: bool)
    requires Pushed(w, name, before, now, children, ok) && (Honest(w, tools) ==> AllDescribed(w, children))
    ensures CollisionFree(w) && Honest(w, tools) && Closed(w, before) ==> Closed(w, now)
  {
    if CollisionFree(w) && Honest(w, tools) && Closed(w, before) {
      PushedKeepsClosed(w, name, before, now, children, ok);
    }
  }

  lemma RebuiltStillClosed(w: World, tools: Toolkit, name: string, tag: string, before: Store,
                           out: seq<Descriptor>, children: seq<Image>)
    requires Behind(w, out, children) && (Honest(w, tools) ==> AllDescribed(w, children))
    ensures CollisionFree(w) && Honest(w, tools) && Closed(w, before) ==>
              Closed(w, Perform(w, before, BuildOps(w, Multi(name, tag, children, tools.encode(out)))).0)
  {
    if CollisionFree(w) && Honest(w, tools) && Closed(w, before) {
      IndexIsValid(w, tools, name, tag, out, children);
      PlannedKeepsClosed(w, before, Multi(name, tag, children, tools.encode(out)));
    }
  }

  lemma PlainForEntry(rule: Rule, params: map<string, string>, now: map<string, string>, base: seq<Descriptor>, n: nat)
    requires n < |base| && SameCaptures(now, params)
    ensures Unambiguous(rule, params, base) ==>
              FlatMutates(rule.mutates) && Plain(PlatformParams(now, base[n].platform))
  {
    assert PlatformParams(now, base[n].platform) == PlatformParams(params, base[n].platform);
    if Unambiguous(rule, params, base) {
      PlatformParamsArePlain(params, base[n].platform);
    }
  }

  /** The index branch of `buildAndSave`: clear the index, build one image for each entry that has a
      platform which passes the filter, and publish the index under the tag at the very end.
      `children` lists the images that the run has come to push. */
  method RebuildIndex(tools: Toolkit, action: Action, pusher: LocalPusher, name: string, tag: string, base: seq<Descriptor>)
    returns (r: Result<seq<Descriptor>, BuildError>, ghost children: seq<Image>)
    modifies action, pusher
    ensures var j := Job(pusher.w, tools, action.rule, old(action.params), base, name, old(pusher.Current()));
            match r
            case Ok(out) => Published(j, tag, out, pusher.Current(), children)
            case Err(error) => Stopped(j, error, pusher.Current(), children)
  {
    ghost var j := Job(pusher.w, tools, action.rule, action.params, base, name, pusher.Current());
    var index := new ImageIndex(base);
    var manifests := index.imageIndex;
    var ps := action.GetPlatforms();
    index.ClearImage();
    children := [];
    AtStart(j);
    for n := 0 to |manifests|
      invariant fresh(index)
      invariant At(j, n, action.params, pusher.Current(), index.imageIndex, children)
    {
      var platform := manifests[n].platform;
      ghost var now, cur, out := action.params, pusher.Current(), index.imageIndex;
      AtSkipped(j, n, now, cur, out, children);
      if platform == None {
        continue;
      }
      if ps.Some? && !Allowed(ps.value, platform.value) {
        continue;
      }
      var built;
      ghost var pushed;
      built, pushed := BuildChild(tools, action, pusher, name, manifests[n]);
      if built.Err? {
        AtFailed(j, n, now, cur, out, children, pusher.Current(), built.error, pushed);
        return Err(built.error), children + pushed;
      }
      AtBuilt(j, n, now, cur, out, children, action.params, pusher.Current(), built.value);
      index.AppendImage(pusher.w, built.value, platform.value);
      children := children + pushed;
    }
    AtEnd(j, tag, action.params, pusher.Current(), index.imageIndex, children);
    pusher.PushImageIndex(name, tag, tools.encode(index.imageIndex));
    r := Ok(index.imageIndex);
  }

  /** The other branch of `buildAndSave`: a base that is a single image, pushed under the tag. */
  method BuildSingle(tools: Toolkit, action: Action, pusher: LocalPusher, name: string, tag: string, d: Descriptor)
    returns (r: Result<Image, BuildError>)
    modifies action, pusher
    ensures r.Err? ==> pusher.manifests == old(pusher.manifests) && r.error != UnknownMutate
    ensures r != Err(PushFailed) ==> Mutated(tools, action.rule, old(action.params), d, r)
    ensures r.Ok? ==>
              && PushReport(pusher.w, old(pusher.Current()), pusher.Current(), name, tag, r.value, true)
              && Perform(pusher.w, old(pusher.Current()), BuildOps(pusher.w, Single(name, tag, r.value)))
                 == (pusher.Current(), true)
    ensures r.Err? && r.error != PushFailed ==> pusher.Current() == old(pusher.Current())
    ensures r == Err(PushFailed) ==>
              exists image :: AnEmptyLayer([image]) && Mutated(tools, action.rule, old(action.params), d, Ok(image)) &&
                              Perform(pusher.w, old(pusher.Current()), ImageOps(pusher.w, name, tag, image))
                              == (pusher.Current(), false)
    ensures CollisionFree(pusher.w) && Honest(pusher.w, tools) && Closed(pusher.w, old(pusher.Current())) ==>
              Closed(pusher.w, pusher.Current())
  {
    r := MutateEntry(tools, action, d);
    if r.Err? {
      return;
    }
    if Honest(pusher.w, tools) {
      ToolkitImagesDescribe(pusher.w, tools, d, r.value);
    }
    var ok := pusher.PushImage(name, tag, r.value);
    if !ok {
      EmptyLayerStops(pusher.w, old(pusher.Current()), pusher.Current(), name, tag, r.value);
      return Err(PushFailed);
    }
  }
}
