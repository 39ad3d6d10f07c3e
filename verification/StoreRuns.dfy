/** Any number of builds writing to one store, interleaved file by file. */
module StoreRuns {
  import opened Prelude
  import opened Text
  import opened BlobStore

  /** A build under way: the operations still to do, and the temporary file it has filled for the
      first of them. */
  datatype Builder = Builder(plan: seq<Op>, todo: seq<Op>, temp: Option<Content>, failed: bool)

  datatype System = System(store: Store, builders: seq<Builder>)

  /** Look at the next operation (skip a layer that is there, else fill a temporary file); rename
      the temporary file into place; or give up, for whatever error. */
  datatype Act = Look | Rename | GiveUp

  predicate CanTurn(b: Builder, a: Act) {
    && b.todo != []
    && match a
       case Look => b.temp == None
       case Rename => b.temp.Some?
       case GiveUp => true
  }

  predicate Enabled(s: System, t: nat, a: Act) {
    t < |s.builders| && CanTurn(s.builders[t], a)
  }

  function Stopped(b: Builder): Builder {
    b.(todo := [], temp := None, failed := true)
  }

  function Popped(b: Builder): Builder
    requires b.todo != []
  {
    b.(todo := b.todo[1..], temp := None)
  }

  /** What one build does to the store and to itself. */
  function Turn(w: World, st: Store, b: Builder, a: Act): (Store, Builder)
    requires CanTurn(b, a)
  {
    match a
    case Look =>
      var op := b.todo[0];
      if op.SaveLayer? && Hit(w, st, op.layer) then (st, Popped(b)) else (st, b.(temp := Some(Payload(op))))
    case Rename =>
      (match Publish(w, st, b.todo[0])
       case None => (st, Stopped(b))
       case Some(st') => (st', Popped(b)))
    case GiveUp => (st, Stopped(b))
  }

  function Step(w: World, s: System, t: nat, a: Act): System
    requires Enabled(s, t, a)
  {
    var (st, b) := Turn(w, s.store, s.builders[t], a);
    System(st, s.builders[t := b])
  }

  ghost predicate Next(w: World, s: System, s': System) {
    exists t: nat, a: Act :: Enabled(s, t, a) && s' == Step(w, s, t, a)
  }

  /** The builders start with the operations of well-formed builds, on a store that keeps its
      promise; an empty one does. */
  ghost predicate Init(w: World, s: System) {
    && Closed(w, s.store)
    && (forall t :: 0 <= t < |s.builders| ==>
          s.builders[t].todo == s.builders[t].plan && s.builders[t].temp == None && !s.builders[t].failed)
    && (forall t :: 0 <= t < |s.builders| ==> Planned(w, s.builders[t].plan))
  }

  ghost predicate Planned(w: World, plan: seq<Op>) {
    exists b :: ValidBuild(w, b) && plan == BuildOps(w, b)
  }

  // ----- whose manifest a tag holds -----

  predicate EndsInTag(plan: seq<Op>) {
    plan != [] && plan[|plan| - 1].WriteTag?
  }

  /** The only tag of a build is written last. */
  predicate TagIsLast(plan: seq<Op>) {
    forall i :: 0 <= i < |plan| - 1 ==> !plan[i].WriteTag?
  }

  function TagPath(plan: seq<Op>): string
    requires EndsInTag(plan)
  {
    LocalManifestPath(plan[|plan| - 1].name, plan[|plan| - 1].tag)
  }

  predicate AtEnd(b: Builder) {
    b.todo == [] && !b.failed
  }

  /** The build has come to its end, and its tag was the one at `path`. */
  predicate HasWritten(b: Builder, path: string) {
    AtEnd(b) && EndsInTag(b.plan) && TagPath(b.plan) == path
  }

  predicate Wrote(b: Builder, path: string, manifest: Content) {
    HasWritten(b, path) && b.plan[|b.plan| - 1].content == manifest
  }

  ghost predicate SomeoneHasWritten(s: System, path: string) {
    exists t :: 0 <= t < |s.builders| && HasWritten(s.builders[t], path)
  }

  /** Once a build that writes the tag has ended, the tag holds the manifest of such a build; before
      that, it is as it was at the start. */
  ghost predicate TagFits(start: Store, s: System, path: string) {
    if SomeoneHasWritten(s, path) then
      path in s.store.manifests
      && exists t :: 0 <= t < |s.builders| && Wrote(s.builders[t], path, s.store.manifests[path])
    else
      && (path in s.store.manifests <==> path in start.manifests)
      && (path in start.manifests ==> s.store.manifests[path] == start.manifests[path])
  }

  ghost predicate TagsFit(start: Store, s: System) {
    forall path :: TagFits(start, s, path)
  }

  lemma {:induction false} LayersWriteNoTag(layers: seq<Layer>)
    ensures forall i :: 0 <= i < |LayerOps(layers)| ==> LayerOps(layers)[i].SaveLayer?
  {
    if layers != [] {
      LayersWriteNoTag(layers[1..]);
    }
  }

  lemma {:induction false} ChildrenWriteNoTag(w: World, name: string, children: seq<Image>)
    ensures forall i :: 0 <= i < |ChildrenOps(w, name, children)| ==> !ChildrenOps(w, name, children)[i].WriteTag?
  {
    if children != [] {
      var k := |children| - 1;
      ChildrenWriteNoTag(w, name, children[..k]);
      LayersWriteNoTag(children[k].layers);
    }
  }

  function OwnManifest(b: Build): Content {
    if b.Single? then b.image.manifest else b.index
  }

  /** The operations of a build end in its tag, when its reference is a tag, and write no other. */
  lemma BuildWritesItsTag(w: World, b: Build)
    ensures var plan := BuildOps(w, b);
            && plan != [] && TagIsLast(plan)
            && (EndsInTag(plan) <==> Tagged(b.name, b.tag))
            && (Tagged(b.name, b.tag) ==> plan[|plan| - 1] == WriteTag(b.name, b.tag, OwnManifest(b)))
  {
    match b
    case Single(_, _, image) => LayersWriteNoTag(image.layers);
    case Multi(name, _, children, _) => ChildrenWriteNoTag(w, name, children);
  }

  // ----- the invariant -----

  /** A build that has not failed is somewhere in its plan. */
  ghost predicate OnTrack(b: Builder) {
    && b.plan != [] && TagIsLast(b.plan)
    && (b.failed ==> b.todo == [])
    && (!b.failed ==> |b.todo| <= |b.plan| && b.todo == b.plan[|b.plan| - |b.todo|..])
  }

  /** Blobs stay as they are and tags stay there. */
  ghost predicate Grows(a: Store, b: Store) {
    Within(a.blobs, b.blobs) && a.manifests.Keys <= b.manifests.Keys
  }

  ghost predicate BuilderFits(w: World, st: Store, b: Builder) {
    Ready(w, st.blobs, b.todo) && OnTrack(b)
  }

  ghost predicate Inv(w: World, s: System) {
    && Closed(w, s.store)
    && (forall t :: 0 <= t < |s.builders| ==> BuilderFits(w, s.store, s.builders[t]))
  }

  lemma InitKeepsInv(w: World, s: System)
    requires CollisionFree(w) && Init(w, s)
    ensures Inv(w, s)
  {
    forall t | 0 <= t < |s.builders|
      ensures BuilderFits(w, s.store, s.builders[t])
    {
      var plan := s.builders[t].plan;
      assert Planned(w, plan);
      var b :| ValidBuild(w, b) && plan == BuildOps(w, b);
      BuildReady(w, s.store.blobs, b);
      BuildWritesItsTag(w, b);
      assert plan[0..] == plan;
    }
  }

  /** Publishing the first operation of a ready list keeps the store's promise, adds only, and
      leaves the rest ready. */
  lemma PublishKeepsClosed(w: World, st: Store, ops: seq<Op>)
    requires CollisionFree(w) && Closed(w, st) && ops != [] && Ready(w, st.blobs, ops)
    requires Publish(w, st, ops[0]).Some?
    ensures var st' := Publish(w, st, ops[0]).value;
            Closed(w, st') && Within(st.blobs, st'.blobs) && Ready(w, st'.blobs, ops[1..])
            && st.manifests.Keys <= st'.manifests.Keys
  {
    var st' := Publish(w, st, ops[0]).value;
    if !ops[0].WriteTag? {
      var c := Payload(ops[0]);
      FilingOnlyAdds(w, st.blobs, c);
      forall p | p in st'.manifests
        ensures Complete(w, st'.blobs, st'.manifests[p])
      {
        CompleteIsStable(w, st.blobs, st'.blobs, st.manifests[p]);
      }
    }
  }

  /** A layer that is found under its name and size is the layer itself. */
  lemma HitIsTheLayer(w: World, st: Store, ops: seq<Op>)
    requires CollisionFree(w) && Closed(w, st) && ops != [] && Ready(w, st.blobs, ops)
    requires ops[0].SaveLayer? && Hit(w, st, ops[0].layer)
    ensures st.blobs[BlobFile(w, ops[0].layer.content)] == ops[0].layer.content
    ensures Ready(w, st.blobs, ops[1..])
  {
    FilingOnlyAdds(w, st.blobs, ops[0].layer.content);
    SameFileSameContent(w, ops[0].layer.content, st.blobs[BlobFile(w, ops[0].layer.content)]);
  }

  lemma FitsIsStable(w: World, st: Store, st': Store, b: Builder)
    requires BuilderFits(w, st, b) && Within(st.blobs, st'.blobs)
    ensures BuilderFits(w, st', b)
  {
    ReadyIsStable(w, st.blobs, st'.blobs, b.todo);
  }

  lemma PopStaysOnTrack(b: Builder)
    requires OnTrack(b) && b.todo != []
    ensures b.todo[0] == b.plan[|b.plan| - |b.todo|]
    ensures OnTrack(Popped(b))
  {
    assert b.plan[|b.plan| - |b.todo| + 1..] == b.todo[1..];
  }

  lemma TurnKeepsFit(w: World, st: Store, b: Builder, a: Act)
    requires CollisionFree(w) && Closed(w, st) && BuilderFits(w, st, b) && CanTurn(b, a)
    ensures var (st', b') := Turn(w, st, b, a);
            Closed(w, st') && BuilderFits(w, st', b') && Grows(st, st')
  {
    PopStaysOnTrack(b);
    if a == Look && b.todo[0].SaveLayer? && Hit(w, st, b.todo[0].layer) {
      HitIsTheLayer(w, st, b.todo);
    } else if a == Rename && Publish(w, st, b.todo[0]).Some? {
      PublishKeepsClosed(w, st, b.todo);
    }
  }

  lemma StepKeepsInv(w: World, s: System, t: nat, a: Act)
    requires CollisionFree(w) && Inv(w, s) && Enabled(s, t, a)
    ensures Inv(w, Step(w, s, t, a))
    ensures Grows(s.store, Step(w, s, t, a).store)
  {
    var (st', b') := Turn(w, s.store, s.builders[t], a);
    TurnKeepsFit(w, s.store, s.builders[t], a);
    forall u | 0 <= u < |s.builders| && u != t
      ensures BuilderFits(w, st', s.builders[u])
    {
      FitsIsStable(w, s.store, st', s.builders[u]);
    }
  }

  /** A build on track is at its tag exactly when one operation is left and the plan ends in a tag. */
  lemma TagOpIsLast(b: Builder)
    requires OnTrack(b) && b.todo != []
    ensures b.todo[0].WriteTag? <==> |b.todo| == 1 && EndsInTag(b.plan)
    ensures |b.todo| == 1 ==> b.todo[0] == b.plan[|b.plan| - 1]
  {
    PopStaysOnTrack(b);
  }

  /** What a turn does to the tags: only the rename of the tag file changes one, and with it the
      build is at its end. */
  lemma TurnTags(w: World, st: Store, b: Builder, a: Act)
    requires OnTrack(b) && CanTurn(b, a)
    ensures var (st', b') := Turn(w, st, b, a);
            b'.plan == b.plan &&
            if a == Rename && b.todo[0].WriteTag? then
              && EndsInTag(b.plan) && AtEnd(b')
              && st'.manifests == st.manifests[TagPath(b.plan) := b.plan[|b.plan| - 1].content]
            else
              st'.manifests == st.manifests && !(AtEnd(b') && EndsInTag(b.plan))
  {
    TagOpIsLast(b);
  }

  lemma StepKeepsTag(w: World, start: Store, s: System, t: nat, a: Act, path: string)
    requires Enabled(s, t, a) && OnTrack(s.builders[t]) && TagFits(start, s, path)
    ensures TagFits(start, Step(w, s, t, a), path)
  {
    var s' := Step(w, s, t, a);
    var b, b' := s.builders[t], s'.builders[t];
    TurnTags(w, s.store, b, a);
    if HasWritten(b', path) {
      assert Wrote(b', path, s'.store.manifests[path]);
    } else if SomeoneHasWritten(s, path) {
      var u :| 0 <= u < |s.builders| && Wrote(s.builders[u], path, s.store.manifests[path]);
      assert u != t && s'.builders[u] == s.builders[u];
      assert Wrote(s'.builders[u], path, s'.store.manifests[path]);
    } else {
      NobodyElse(s, s', t, path);
    }
  }

  lemma NobodyElse(s: System, s': System, t: nat, path: string)
    requires t < |s.builders| == |s'.builders| && s'.builders == s.builders[t := s'.builders[t]]
    requires !SomeoneHasWritten(s, path) && !HasWritten(s'.builders[t], path)
    ensures !SomeoneHasWritten(s', path)
  {
    forall u | 0 <= u < |s'.builders|
      ensures !HasWritten(s'.builders[u], path)
    {
      assert u != t ==> s'.builders[u] == s.builders[u];
    }
  }

  lemma StepKeepsTags(w: World, start: Store, s: System, t: nat, a: Act)
    requires Inv(w, s) && Enabled(s, t, a) && TagsFit(start, s)
    ensures TagsFit(start, Step(w, s, t, a))
  {
    assert BuilderFits(w, s.store, s.builders[t]);
    forall path
      ensures TagFits(start, Step(w, s, t, a), path)
    {
      StepKeepsTag(w, start, s, t, a, path);
    }
  }

  // ----- runs -----

  ghost predicate Run(w: World, r: seq<System>) {
    && r != [] && Init(w, r[0])
    && (forall i :: 0 <= i < |r| - 1 ==> StepAt(w, r, i))
  }

  ghost predicate StepAt(w: World, r: seq<System>, i: nat)
    requires i + 1 < |r|
  {
    Next(w, r[i], r[i + 1])
  }

  lemma StepTaken(w: World, r: seq<System>, i: nat) returns (t: nat, a: Act)
    requires Run(w, r) && i + 1 < |r|
    ensures Enabled(r[i], t, a) && r[i + 1] == Step(w, r[i], t, a)
  {
    assert StepAt(w, r, i);
    t, a :| Enabled(r[i], t, a) && r[i + 1] == Step(w, r[i], t, a);
  }

  lemma {:induction false} RunKeepsInv(w: World, r: seq<System>, i: nat)
    requires CollisionFree(w) && Run(w, r) && i < |r|
    ensures Inv(w, r[i])
  {
    if i == 0 {
      InitKeepsInv(w, r[0]);
    } else {
      RunKeepsInv(w, r, i - 1);
      var t, a := StepTaken(w, r, i - 1);
      StepKeepsInv(w, r[i - 1], t, a);
    }
  }

  lemma {:induction false} RunKeepsTags(w: World, r: seq<System>, i: nat)
    requires CollisionFree(w) && Run(w, r) && i < |r|
    ensures TagsFit(r[0].store, r[i])
  {
    if i == 0 {
      NothingWritten(w, r[0]);
    } else {
      RunKeepsTags(w, r, i - 1);
      OneStepKeepsTags(w, r[0].store, r, i - 1);
    }
  }

  lemma OneStepKeepsTags(w: World, start: Store, r: seq<System>, i: nat)
    requires CollisionFree(w) && Run(w, r) && i + 1 < |r| && TagsFit(start, r[i])
    ensures TagsFit(start, r[i + 1])
  {
    RunKeepsInv(w, r, i);
    var t, a := StepTaken(w, r, i);
    StepKeepsTags(w, start, r[i], t, a);
  }

  predicate SamePlans(s: System, s': System) {
    |s.builders| == |s'.builders| && forall t :: 0 <= t < |s.builders| ==> s'.builders[t].plan == s.builders[t].plan
  }

  lemma StepKeepsPlans(w: World, s: System, t: nat, a: Act)
    requires Enabled(s, t, a)
    ensures SamePlans(s, Step(w, s, t, a))
  {
  }

  lemma {:induction false} RunKeepsPlans(w: World, r: seq<System>, i: nat)
    requires Run(w, r) && i < |r|
    ensures SamePlans(r[0], r[i])
  {
    if i > 0 {
      RunKeepsPlans(w, r, i - 1);
      var t, a := StepTaken(w, r, i - 1);
      StepKeepsPlans(w, r[i - 1], t, a);
    }
  }

  lemma NothingWritten(w: World, s: System)
    requires CollisionFree(w) && Init(w, s)
    ensures TagsFit(s.store, s)
  {
    InitKeepsInv(w, s);
    forall path
      ensures !SomeoneHasWritten(s, path)
    {
      assert forall t :: 0 <= t < |s.builders| ==> BuilderFits(w, s.store, s.builders[t]);
    }
  }

  /** In every state of every run, between any two file operations of any builds: each blob has
      the digest it is filed under, and each tag holds a manifest whose own blob, configuration,
      layers and (for an index) child manifests with their configurations and layers are there. */
  lemma StoreIsAlwaysClosed(w: World, r: seq<System>, i: nat)
    requires CollisionFree(w) && Run(w, r) && i < |r|
    ensures Closed(w, r[i].store)
  {
    RunKeepsInv(w, r, i);
  }

  lemma GrowsOn(a: Store, b: Store, c: Store)
    requires Grows(a, b) && Grows(b, c)
    ensures Grows(a, c)
  {
  }

  lemma {:induction false} GrowsAlong(r: seq<System>, i: nat, j: nat)
    requires i <= j < |r| && forall k :: i <= k < j ==> Grows(r[k].store, r[k + 1].store)
    ensures Grows(r[i].store, r[j].store)
    decreases j
  {
    if i < j {
      GrowsAlong(r, i, j - 1);
      assert Grows(r[j - 1].store, r[(j - 1) + 1].store);
    }
  }

  /** Nothing published is ever changed or withdrawn, except that a tag may move. */
  lemma PublishedStays(w: World, r: seq<System>, i: nat, j: nat)
    requires CollisionFree(w) && Run(w, r) && i <= j < |r|
    ensures Grows(r[i].store, r[j].store)
  {
    forall k | i <= k < j
      ensures Grows(r[k].store, r[k + 1].store)
    {
      OneStepStays(w, r, k);
    }
    GrowsAlong(r, i, j);
  }

  lemma OneStepStays(w: World, r: seq<System>, i: nat)
    requires CollisionFree(w) && Run(w, r) && i + 1 < |r|
    ensures Grows(r[i].store, r[i + 1].store)
  {
    RunKeepsInv(w, r, i);
    var t, a := StepTaken(w, r, i);
    StepKeepsInv(w, r[i], t, a);
  }

  predicate AtLastOperation(b: Builder) {
    |b.todo| == 1
  }

  lemma BeginsWithWork(w: World, s: System, t: nat)
    requires CollisionFree(w) && Init(w, s) && t < |s.builders|
    ensures s.builders[t].todo != []
  {
    InitKeepsInv(w, s);
    assert BuilderFits(w, s.store, s.builders[t]);
  }

  lemma LastTurn(w: World, s: System, u: nat, a: Act, t: nat)
    requires Enabled(s, u, a) && t < |s.builders|
    requires !AtEnd(s.builders[t]) && AtEnd(Step(w, s, u, a).builders[t])
    ensures u == t && AtLastOperation(s.builders[t])
  {
    var b := s.builders[u];
    assert AtEnd(Turn(w, s.store, b, a).1) ==> |b.todo| == 1 || b.failed;
  }

  /** A build that has ended without failing has at some time done its last operation. */
  lemma {:induction false} EndWasReached(w: World, r: seq<System>, i: nat, t: nat) returns (k: nat, a: Act)
    requires CollisionFree(w) && Run(w, r) && i < |r| && t < |r[i].builders| && AtEnd(r[i].builders[t])
    ensures k < i && t < |r[k].builders| && AtLastOperation(r[k].builders[t])
    ensures Enabled(r[k], t, a) && r[k + 1] == Step(w, r[k], t, a) && AtEnd(r[k + 1].builders[t])
    decreases i
  {
    RunKeepsPlans(w, r, i);
    BeginsWithWork(w, r[0], t);
    assert i > 0;
    RunKeepsPlans(w, r, i - 1);
    if AtEnd(r[i - 1].builders[t]) {
      k, a := EndWasReached(w, r, i - 1, t);
    } else {
      k := i - 1;
      var u;
      u, a := StepTaken(w, r, k);
      LastTurn(w, r[k], u, a, t);
    }
  }

  // ----- why builds fail -----

  /** The two ways to fail: giving up, and coming to a layer that turns out to be empty. */
  predicate Fails(b: Builder, a: Act) {
    || a == GiveUp
    || (a == Rename && b.todo != [] && b.todo[0].SaveLayer? && |b.todo[0].layer.content| == 0)
  }

  lemma TurnFailsExactly(w: World, st: Store, b: Builder, a: Act)
    requires CanTurn(b, a) && !b.failed
    ensures Turn(w, st, b, a).1.failed <==> Fails(b, a)
  {
  }

  lemma StepFails(w: World, s: System, u: nat, a: Act, t: nat)
    requires Enabled(s, u, a) && t < |s.builders|
    requires !s.builders[t].failed && Step(w, s, u, a).builders[t].failed
    ensures u == t && Fails(s.builders[t], a)
  {
    if u == t {
      TurnFailsExactly(w, s.store, s.builders[t], a);
    }
  }

  /** A build that has failed gave up, or came to an empty layer, at some step of the run. */
  lemma {:induction false} FailureHasReason(w: World, r: seq<System>, i: nat, t: nat) returns (k: nat, a: Act)
    requires Run(w, r) && i < |r| && t < |r[i].builders| && r[i].builders[t].failed
    ensures k < i && Enabled(r[k], t, a) && r[k + 1] == Step(w, r[k], t, a) && Fails(r[k].builders[t], a)
    decreases i
  {
    RunKeepsPlans(w, r, i);
    assert i > 0;
    RunKeepsPlans(w, r, i - 1);
    if r[i - 1].builders[t].failed {
      k, a := FailureHasReason(w, r, i - 1, t);
    } else {
      k := i - 1;
      var u;
      u, a := StepTaken(w, r, k);
      StepFails(w, r[k], u, a, t);
    }
  }

  predicate HasEmptyLayer(plan: seq<Op>) {
    exists i :: 0 <= i < |plan| && plan[i].SaveLayer? && |plan[i].layer.content| == 0
  }

  /** So a build without empty layers that never gives up does not fail. */
  lemma OnlyGivingUpFails(w: World, r: seq<System>, i: nat, t: nat) returns (k: nat)
    requires CollisionFree(w) && Run(w, r) && i < |r| && t < |r[i].builders| && r[i].builders[t].failed
    requires !HasEmptyLayer(r[i].builders[t].plan)
    ensures k < i && Enabled(r[k], t, GiveUp) && r[k + 1] == Step(w, r[k], t, GiveUp)
  {
    var a;
    k, a := FailureHasReason(w, r, i, t);
    RunKeepsPlans(w, r, i);
    RunKeepsPlans(w, r, k);
    RunKeepsInv(w, r, k);
    var b := r[k].builders[t];
    assert BuilderFits(w, r[k].store, b);
    PopStaysOnTrack(b);
    assert b.plan[|b.plan| - |b.todo|] == b.todo[0];
  }

  /** No other build has the tag at `path`. */
  ghost predicate OnlyBuildFor(s: System, t: nat, path: string) {
    forall u :: 0 <= u < |s.builders| && u != t && EndsInTag(s.builders[u].plan) ==> TagPath(s.builders[u].plan) != path
  }

  /** A build that has come to its end without failing has put its own manifest under its tag, by the
      rename that was its last operation.  The tag is there ever after and complete, and it still
      holds that manifest unless another build has the same tag. */
  lemma FinishedBuildIsServed(w: World, r: seq<System>, i: nat, t: nat, b: Build) returns (k: nat)
    requires CollisionFree(w) && Run(w, r) && i < |r| && t < |r[i].builders|
    requires r[i].builders[t].plan == BuildOps(w, b) && Tagged(b.name, b.tag) && AtEnd(r[i].builders[t])
    ensures k < i && Enabled(r[k], t, Rename) && r[k + 1] == Step(w, r[k], t, Rename)
    ensures var path := LocalManifestPath(b.name, b.tag);
            && path in r[k + 1].store.manifests && r[k + 1].store.manifests[path] == OwnManifest(b)
            && path in r[i].store.manifests && Complete(w, r[i].store.blobs, r[i].store.manifests[path])
            && (OnlyBuildFor(r[i], t, path) ==> r[i].store.manifests[path] == OwnManifest(b))
  {
    var path := LocalManifestPath(b.name, b.tag);
    BuildWritesItsTag(w, b);
    var a;
    k, a := EndWasReached(w, r, i, t);
    RunKeepsPlans(w, r, k);
    RunKeepsPlans(w, r, i);
    RunKeepsTags(w, r, i);
    RunKeepsInv(w, r, k);
    RunKeepsInv(w, r, i);
    assert BuilderFits(w, r[k].store, r[k].builders[t]);
    PopStaysOnTrack(r[k].builders[t]);
    TurnTags(w, r[k].store, r[k].builders[t], a);
    assert HasWritten(r[i].builders[t], path);
    assert TagFits(r[0].store, r[i], path);
  }

  predicate RefersTo(refs: Refs, hash: string) {
    match refs
    case NoRefs => false
    case ImageRefs(config, layers) => hash == config || hash in layers
    case IndexRefs(children) => hash in children
  }

  /** A digest that a client comes across when it starts from a served manifest: the manifest's
      own, one that it refers to, or one that a child manifest of an index refers to. */
  ghost predicate Reachable(w: World, blobs: map<string, Content>, manifest: Content, hash: string) {
    || hash == w.sum(manifest)
    || RefersTo(w.refs(manifest), hash)
    || (w.refs(manifest).IndexRefs?
        && exists child :: child in w.refs(manifest).children && Stored(blobs, child)
                           && RefersTo(w.refs(blobs[LocalBlobPath(child)]), hash))
  }

  lemma CompleteIsReachable(w: World, blobs: map<string, Content>, manifest: Content, hash: string)
    requires Complete(w, blobs, manifest) && Reachable(w, blobs, manifest, hash)
    ensures Stored(blobs, hash)
  {
  }

  /** Pulling by tag: every digest that the client comes across, bare or prefixed, leads to a blob
      with that digest, in the state in which the manifest was served or any later one. */
  lemma PullFindsEveryBlob(w: World, r: seq<System>, i: nat, j: nat, path: string, hash: string)
    requires CollisionFree(w) && Run(w, r) && i <= j < |r| && path in r[i].store.manifests
    requires Reachable(w, r[i].store.blobs, r[i].store.manifests[path], hash)
    requires hash != "" && !HasPrefix(hash, "sha256:")
    ensures LocalBlobPath(hash) == LocalBlobPath("sha256:" + hash)
    ensures LocalBlobPath(hash) in r[j].store.blobs
    ensures w.sum(r[j].store.blobs[LocalBlobPath(hash)]) == hash
  {
    StoreIsAlwaysClosed(w, r, i);
    PublishedStays(w, r, i, j);
    StoreIsAlwaysClosed(w, r, j);
    CompleteIsReachable(w, r[i].store.blobs, r[i].store.manifests[path], hash);
    var c := r[j].store.blobs[LocalBlobPath(hash)];
    BlobNames(hash, w.sum(c));
  }
}
