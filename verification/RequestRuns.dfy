/** Manifest requests from arrival to answer: `localManifests` of pkg/handler/serve.go, around the
    single-flight protocol, with the builds that write to the store inside it.

    A request first looks for the manifest file; without one it calls `buildAndSave`, and then it
    serves whatever manifest file there is.  A build reads its reference anew with
    `name.ParseReference` and pushes to the name and tag it finds there: `target`. */
module RequestRuns {
  import opened Prelude
  import opened Text
  import opened BlobStore
  import F = SingleFlight
  import S = StoreRuns
  import D = Dispatch

  datatype Target = Target(name: string, tag: string)

  /** A request, and what it will push if it comes to build.  A build can give up at any time, so
      one that gets nowhere, for a reference that does not parse or a base that is not there, is
      among them. */
  datatype Request = Request(image: string, tag: string, build: Build)

  /** What stays the same during a run. */
  datatype Server = Server(w: World, target: string -> Target, requests: seq<Request>)

  function Ref(q: Request): string {
    q.image + ":" + q.tag
  }

  /** The manifest file that a request looks for and serves. */
  function ReadPath(q: Request): string {
    LocalManifestPath(q.image, q.tag)
  }

  ghost predicate Valid(v: Server) {
    CollisionFree(v.w) && forall t :: 0 <= t < |v.requests| ==> ValidRequest(v, v.requests[t])
  }

  ghost predicate ValidRequest(v: Server, q: Request) {
    ValidBuild(v.w, q.build) && v.target(Ref(q)) == Target(q.build.name, q.build.tag)
  }

  datatype Answer = Manifest(content: Content) | NotFound | BuildFailed

  datatype Front = Asked | Found | Called | Answered(answer: Answer)

  datatype System = System(
    front: seq<Front>,
    calls: F.State,      // request t makes call t of the protocol, if any
    disk: S.System)      // the store, and builder t for the build of request t

  /** Look for the manifest file; take a step of the protocol; do a store operation of the build
      that runs under the write lock; serve. */
  datatype Act = Look | Protocol | Work(turn: S.Act) | Serve

  predicate Sizes(v: Server, s: System) {
    F.Shape(s.calls) && |s.front| == |v.requests| == |s.calls.refs| == |s.disk.builders|
  }

  /** The build step of the protocol ends when the builder has nothing left to do. */
  predicate Able(v: Server, s: System, t: nat, a: Act) {
    && Sizes(v, s) && t < |v.requests|
    && match a
       case Look => s.front[t] == Asked
       case Protocol =>
         s.front[t] == Called && F.Enabled(s.calls, t) && (s.calls.phase[t].Building? ==> s.disk.builders[t].todo == [])
       case Work(turn) => s.calls.phase[t].Building? && S.Enabled(s.disk, t, turn)
       case Serve => s.front[t] == Found || (s.front[t] == Called && s.calls.phase[t].Done?)
  }

  function AnswerFor(v: Server, s: System, t: nat): Answer
    requires Sizes(v, s) && t < |v.requests|
  {
    var path := ReadPath(v.requests[t]);
    if s.disk.builders[t].failed then BuildFailed
    else if path in s.disk.store.manifests then Manifest(s.disk.store.manifests[path])
    else NotFound
  }

  function Do(v: Server, s: System, t: nat, a: Act): System
    requires Able(v, s, t, a)
  {
    match a
    case Look =>
      s.(front := s.front[t := if ReadPath(v.requests[t]) in s.disk.store.manifests then Found else Called])
    case Protocol => s.(calls := F.Step(s.calls, t))
    case Work(turn) => s.(disk := S.Step(v.w, s.disk, t, turn))
    case Serve => s.(front := s.front[t := Answered(AnswerFor(v, s, t))])
  }

  ghost predicate Begins(v: Server, s: System) {
    && Fixed(v, s) && F.Init(s.calls) && S.Init(v.w, s.disk)
    && (forall t :: 0 <= t < |s.front| ==> s.front[t] == Asked)
  }

  ghost predicate Moves(v: Server, s: System, s': System) {
    exists t: nat, a: Act :: Able(v, s, t, a) && s' == Do(v, s, t, a)
  }

  ghost predicate Runs(v: Server, r: seq<System>) {
    r != [] && Begins(v, r[0]) && Goes(v, r)
  }

  ghost predicate Goes(v: Server, r: seq<System>) {
    Valid(v) && forall i :: 0 <= i < |r| - 1 ==> MovesAt(v, r, i)
  }

  ghost predicate MovesAt(v: Server, r: seq<System>, i: nat)
    requires i + 1 < |r|
  {
    Moves(v, r[i], r[i + 1])
  }

  // ----- the invariant -----

  /** The calls and the builders are those of the requests. */
  ghost predicate Fixed(v: Server, s: System) {
    && Sizes(v, s)
    && (forall t :: 0 <= t < |v.requests| ==> s.calls.refs[t] == Ref(v.requests[t]))
    && (forall t :: 0 <= t < |v.requests| ==> s.disk.builders[t].plan == BuildOps(v.w, v.requests[t].build))
  }

  predicate BuildOver(p: F.Phase, t: nat) {
    p.Deleting? || p.Unlocking? || p == F.Done(t)
  }

  /** A builder works only while its call is building. */
  predicate WorksInBuild(p: F.Phase, t: nat, b: S.Builder) {
    && (!p.Building? && !BuildOver(p, t) ==> b.todo == b.plan && !b.failed)
    && (BuildOver(p, t) ==> b.todo == [])
  }

  /** A manifest that a tag held at the start, or that a finished build put there. */
  ghost predicate Supplied(start: Store, disk: S.System, path: string, c: Content) {
    || (path in start.manifests && start.manifests[path] == c)
    || exists m :: 0 <= m < |disk.builders| && S.Wrote(disk.builders[m], path, c)
  }

  ghost predicate AnswerFits(v: Server, start: Store, s: System, t: nat, answer: Answer)
    requires Sizes(v, s) && t < |v.requests|
  {
    && (s.calls.phase[t] == F.Start ==> answer.Manifest?)
    && (answer == BuildFailed <==> s.disk.builders[t].failed)
    && (answer.Manifest? ==>
          Complete(v.w, s.disk.store.blobs, answer.content)
          && Supplied(start, s.disk, ReadPath(v.requests[t]), answer.content))
  }

  ghost predicate FrontFits(v: Server, start: Store, s: System, t: nat)
    requires Sizes(v, s) && t < |v.requests|
  {
    match s.front[t]
    case Asked => s.calls.phase[t] == F.Start
    case Found => s.calls.phase[t] == F.Start && ReadPath(v.requests[t]) in s.disk.store.manifests
    case Called => true
    case Answered(answer) =>
      (s.calls.phase[t] == F.Start || s.calls.phase[t].Done?) && AnswerFits(v, start, s, t, answer)
  }

  ghost predicate RequestFits(v: Server, start: Store, s: System, t: nat)
    requires Sizes(v, s) && t < |v.requests|
  {
    WorksInBuild(s.calls.phase[t], t, s.disk.builders[t]) && FrontFits(v, start, s, t)
  }

  ghost predicate AllFit(v: Server, start: Store, s: System)
    requires Sizes(v, s)
  {
    forall t :: 0 <= t < |v.requests| ==> RequestFits(v, start, s, t)
  }

  ghost predicate Fits(v: Server, start: Store, s: System) {
    && Fixed(v, s) && F.Inv(s.calls) && S.Inv(v.w, s.disk) && S.TagsFit(start, s.disk)
    && AllFit(v, start, s)
  }

  lemma BeginsFits(v: Server, s: System)
    requires Valid(v) && Begins(v, s)
    ensures Fits(v, s.disk.store, s)
  {
    F.InitKeepsInv(s.calls);
    S.InitKeepsInv(v.w, s.disk);
    S.NothingWritten(v.w, s.disk);
  }

  lemma OthersUntouched(s: F.State, t: nat, u: nat)
    requires F.Inv(s) && F.Enabled(s, t) && u < |s.phase| && u != t
    ensures F.Shape(F.Step(s, t)) && |F.Step(s, t).phase| == |s.phase| && F.Step(s, t).refs == s.refs
    ensures F.Step(s, t).phase[u] == s.phase[u]
  {
  }

  lemma OwnStep(s: F.State, t: nat)
    requires F.Inv(s) && F.Enabled(s, t)
    ensures F.Shape(F.Step(s, t)) && |F.Step(s, t).phase| == |s.phase| && F.Step(s, t).refs == s.refs
    ensures !s.phase[t].Done? && (s.phase[t].Building? <==> F.Step(s, t).phase[t].Deleting?)
    ensures !s.phase[t].Building? ==> (BuildOver(s.phase[t], t) <==> BuildOver(F.Step(s, t).phase[t], t))
    ensures F.Step(s, t).phase[t].Building? ==> !BuildOver(s.phase[t], t)
  {
    if s.phase[t].Reading? {
      F.FollowerOf(s, t, s.phase[t].mut);
    }
  }

  lemma LookKeepsFit(v: Server, start: Store, s: System, t: nat)
    requires Fits(v, start, s) && Able(v, s, t, Look)
    ensures Fits(v, start, Do(v, s, t, Look))
  {
    assert RequestFits(v, start, s, t);
    OnlyFrontChanged(v, start, s, t, Do(v, s, t, Look).front[t]);
  }

  lemma OnlyFrontChanged(v: Server, start: Store, s: System, t: nat, f: Front)
    requires Sizes(v, s) && AllFit(v, start, s) && t < |v.requests|
    requires FrontFits(v, start, s.(front := s.front[t := f]), t)
    ensures AllFit(v, start, s.(front := s.front[t := f]))
  {
    var s' := s.(front := s.front[t := f]);
    forall u | 0 <= u < |v.requests|
      ensures RequestFits(v, start, s', u)
    {
      assert RequestFits(v, start, s, u);
    }
  }

  lemma ProtocolKeepsFit(v: Server, start: Store, s: System, t: nat)
    requires Fits(v, start, s) && Able(v, s, t, Protocol)
    ensures Fits(v, start, Do(v, s, t, Protocol))
  {
    var s' := Do(v, s, t, Protocol);
    F.StepKeepsInv(s.calls, t);
    OwnStep(s.calls, t);
    forall u | 0 <= u < |v.requests|
      ensures RequestFits(v, start, s', u)
    {
      assert RequestFits(v, start, s, u);
      if u != t {
        OthersUntouched(s.calls, t, u);
      }
    }
  }

  lemma SuppliedStays(w: World, start: Store, disk: S.System, t: nat, turn: S.Act, path: string, c: Content)
    requires S.Enabled(disk, t, turn) && Supplied(start, disk, path, c)
    ensures Supplied(start, S.Step(w, disk, t, turn), path, c)
  {
    if !(path in start.manifests && start.manifests[path] == c) {
      var m :| 0 <= m < |disk.builders| && S.Wrote(disk.builders[m], path, c);
      assert m != t && S.Step(w, disk, t, turn).builders[m] == disk.builders[m];
    }
  }

  lemma OtherRequestFits(v: Server, start: Store, s: System, t: nat, turn: S.Act, u: nat)
    requires Able(v, s, t, Work(turn)) && u < |v.requests| && u != t && RequestFits(v, start, s, u)
    requires var s' := Do(v, s, t, Work(turn)); Sizes(v, s') && S.Grows(s.disk.store, s'.disk.store)
    ensures RequestFits(v, start, Do(v, s, t, Work(turn)), u)
  {
    var s' := Do(v, s, t, Work(turn));
    assert s'.disk.builders[u] == s.disk.builders[u];
    if s.front[u].Answered? && s.front[u].answer.Manifest? {
      var c := s.front[u].answer.content;
      CompleteIsStable(v.w, s.disk.store.blobs, s'.disk.store.blobs, c);
      SuppliedStays(v.w, start, s.disk, t, turn, ReadPath(v.requests[u]), c);
    }
  }

  lemma WorkKeepsFit(v: Server, start: Store, s: System, t: nat, turn: S.Act)
    requires Valid(v) && Fits(v, start, s) && Able(v, s, t, Work(turn))
    ensures Fits(v, start, Do(v, s, t, Work(turn)))
    ensures S.Grows(s.disk.store, Do(v, s, t, Work(turn)).disk.store)
  {
    var s' := Do(v, s, t, Work(turn));
    S.StepKeepsInv(v.w, s.disk, t, turn);
    S.StepKeepsTags(v.w, start, s.disk, t, turn);
    S.StepKeepsPlans(v.w, s.disk, t, turn);
    assert RequestFits(v, start, s, t);
    forall u | 0 <= u < |v.requests|
      ensures RequestFits(v, start, s', u)
    {
      if u != t {
        assert RequestFits(v, start, s, u);
        OtherRequestFits(v, start, s, t, turn, u);
      }
    }
  }

  lemma TagIsSupplied(start: Store, disk: S.System, path: string)
    requires S.TagsFit(start, disk) && path in disk.store.manifests
    ensures Supplied(start, disk, path, disk.store.manifests[path])
  {
    assert S.TagFits(start, disk, path);
  }

  lemma AnswerIsFit(v: Server, start: Store, s: System, t: nat)
    requires Fits(v, start, s) && Able(v, s, t, Serve)
    ensures s.calls.phase[t] == F.Start || s.calls.phase[t].Done?
    ensures AnswerFits(v, start, s, t, AnswerFor(v, s, t))
  {
    var path := ReadPath(v.requests[t]);
    assert RequestFits(v, start, s, t);
    if path in s.disk.store.manifests {
      TagIsSupplied(start, s.disk, path);
      assert Complete(v.w, s.disk.store.blobs, s.disk.store.manifests[path]);
    }
  }

  lemma ServeKeepsFit(v: Server, start: Store, s: System, t: nat)
    requires Fits(v, start, s) && Able(v, s, t, Serve)
    ensures Fits(v, start, Do(v, s, t, Serve))
  {
    AnswerIsFit(v, start, s, t);
    OnlyFrontChanged(v, start, s, t, Answered(AnswerFor(v, s, t)));
  }

  /** What is known of every request, of the calls, the builders and the store survives every move. */
  lemma DoKeepsFit(v: Server, start: Store, s: System, t: nat, a: Act)
    requires Valid(v) && Fits(v, start, s) && Able(v, s, t, a)
    ensures Fits(v, start, Do(v, s, t, a))
    ensures S.Grows(s.disk.store, Do(v, s, t, a).disk.store)
  {
    match a
    case Look => LookKeepsFit(v, start, s, t);
    case Protocol => ProtocolKeepsFit(v, start, s, t);
    case Work(turn) => WorkKeepsFit(v, start, s, t, turn);
    case Serve => ServeKeepsFit(v, start, s, t);
  }

  lemma MoveMade(v: Server, r: seq<System>, i: nat) returns (t: nat, a: Act)
    requires Goes(v, r) && i + 1 < |r|
    ensures Able(v, r[i], t, a) && r[i + 1] == Do(v, r[i], t, a)
  {
    assert MovesAt(v, r, i);
    t, a :| Able(v, r[i], t, a) && r[i + 1] == Do(v, r[i], t, a);
  }

  lemma MoveKeepsFit(v: Server, start: Store, r: seq<System>, i: nat)
    requires Goes(v, r) && i + 1 < |r| && Fits(v, start, r[i])
    ensures Fits(v, start, r[i + 1]) && S.Grows(r[i].disk.store, r[i + 1].disk.store)
  {
    var t, a := MoveMade(v, r, i);
    DoKeepsFit(v, start, r[i], t, a);
  }

  lemma RunsFit(v: Server, r: seq<System>, i: nat)
    requires Runs(v, r) && i < |r|
    ensures Fits(v, r[0].disk.store, r[i])
  {
    var start := r[0].disk.store;
    var fits: System -> bool := s => Fits(v, start, s);
    BeginsFits(v, r[0]);
    forall k | 0 <= k < i
      ensures Inherited(fits, r, k)
    {
      if fits(r[k]) {
        MoveKeepsFit(v, start, r, k);
      }
    }
    Along(fits, r, 0, i);
  }

  lemma MoveGrows(v: Server, r: seq<System>, i: nat)
    requires Runs(v, r) && i + 1 < |r|
    ensures S.Grows(r[i].disk.store, r[i + 1].disk.store)
  {
    RunsFit(v, r, i);
    MoveKeepsFit(v, r[0].disk.store, r, i);
  }

  lemma {:induction false} DiskGrows(v: Server, r: seq<System>, i: nat, j: nat)
    requires Runs(v, r) && i <= j < |r|
    ensures S.Grows(r[i].disk.store, r[j].disk.store)
    decreases j
  {
    if i < j {
      DiskGrows(v, r, i, j - 1);
      MoveGrows(v, r, j - 1);
      S.GrowsOn(r[i].disk.store, r[j - 1].disk.store, r[j].disk.store);
    }
  }

  // ----- what requests are answered -----

  ghost predicate IsAnswered(s: System, t: nat, answer: Answer) {
    t < |s.front| && s.front[t] == Answered(answer)
  }

  /** In every state of every run: a request fails exactly when its own build failed, and then it was
      the leader; one that is answered with a manifest got one that was there at the start, or the
      own manifest of a build that ended well under the requested name and tag. */
  lemma AnswersMean(v: Server, r: seq<System>, i: nat, t: nat, answer: Answer)
    requires Runs(v, r) && i < |r| && IsAnswered(r[i], t, answer)
    ensures |r[i].front| == |v.requests| == |r[i].calls.phase| == |r[i].disk.builders|
    ensures answer == BuildFailed <==> r[i].disk.builders[t].failed
    ensures answer == BuildFailed ==> r[i].calls.phase[t] == F.Done(t)
    ensures answer.Manifest? ==> Supplied(r[0].disk.store, r[i].disk, ReadPath(v.requests[t]), answer.content)
  {
    RunsFit(v, r, i);
    assert RequestFits(v, r[0].disk.store, r[i], t);
  }

  /** The move is one with which the build of request `t` fails: it gives up, or it comes to a layer
      that turns out to be empty. */
  predicate FailsBy(s: System, t: nat, a: Act) {
    t < |s.disk.builders| && a.Work? && S.Fails(s.disk.builders[t], a.turn)
  }

  lemma MoveFails(v: Server, s: System, u: nat, a: Act, t: nat)
    requires Able(v, s, u, a) && t < |s.disk.builders| && !s.disk.builders[t].failed
    requires |Do(v, s, u, a).disk.builders| == |s.disk.builders| && Do(v, s, u, a).disk.builders[t].failed
    ensures u == t && FailsBy(s, t, a)
  {
    if a.Work? {
      S.StepFails(v.w, s.disk, u, a.turn, t);
    }
  }

  lemma NobodyFailedYet(v: Server, s: System, t: nat)
    requires Begins(v, s) && t < |v.requests|
    ensures !s.disk.builders[t].failed
  {
  }

  lemma BuildersAlong(v: Server, r: seq<System>, i: nat)
    requires Runs(v, r) && i < |r|
    ensures |r[i].disk.builders| == |v.requests|
  {
    RunsFit(v, r, i);
  }

  /** A request fails for no other reason. */
  lemma {:induction false} FailureHasReason(v: Server, r: seq<System>, i: nat, t: nat) returns (k: nat, a: Act)
    requires Runs(v, r) && i < |r| && t < |v.requests| && t < |r[i].disk.builders| && r[i].disk.builders[t].failed
    ensures k < i && Able(v, r[k], t, a) && r[k + 1] == Do(v, r[k], t, a) && FailsBy(r[k], t, a)
    decreases i
  {
    NobodyFailedYet(v, r[0], t);
    assert i > 0;
    BuildersAlong(v, r, i - 1);
    BuildersAlong(v, r, i);
    if r[i - 1].disk.builders[t].failed {
      k, a := FailureHasReason(v, r, i - 1, t);
    } else {
      k := i - 1;
      var u;
      u, a := MoveMade(v, r, k);
      MoveFails(v, r[k], u, a, t);
    }
  }

  /** Whoever is answered with a manifest finds what it refers to, then and later: every digest met
      from that manifest leads to a blob with that digest. */
  lemma AnswersStayPullable(v: Server, r: seq<System>, i: nat, j: nat, t: nat, c: Content, hash: string)
    requires Runs(v, r) && i <= j < |r| && IsAnswered(r[i], t, Manifest(c))
    requires S.Reachable(v.w, r[i].disk.store.blobs, c, hash) && hash != "" && !HasPrefix(hash, "sha256:")
    ensures Complete(v.w, r[j].disk.store.blobs, c)
    ensures LocalBlobPath(hash) == LocalBlobPath("sha256:" + hash)
    ensures LocalBlobPath(hash) in r[j].disk.store.blobs
    ensures v.w.sum(r[j].disk.store.blobs[LocalBlobPath(hash)]) == hash
  {
    RunsFit(v, r, i);
    RunsFit(v, r, j);
    DiskGrows(v, r, i, j);
    assert RequestFits(v, r[0].disk.store, r[i], t);
    StillThere(v.w, r[i].disk.store.blobs, r[j].disk.store.blobs, c, hash);
  }

  lemma StillThere(w: World, a: map<string, Content>, b: map<string, Content>, c: Content, hash: string)
    requires CollisionFree(w) && Within(a, b) && Matching(w, b) && Complete(w, a, c)
    requires S.Reachable(w, a, c, hash) && hash != "" && !HasPrefix(hash, "sha256:")
    ensures Complete(w, b, c)
    ensures LocalBlobPath(hash) == LocalBlobPath("sha256:" + hash)
    ensures LocalBlobPath(hash) in b && w.sum(b[LocalBlobPath(hash)]) == hash
  {
    CompleteIsStable(w, a, b, c);
    S.CompleteIsReachable(w, a, c, hash);
    BlobNames(hash, w.sum(b[LocalBlobPath(hash)]));
  }

  ghost predicate ServesAt(v: Server, r: seq<System>, i: nat, t: nat) {
    i + 1 < |r| && Able(v, r[i], t, Serve) && r[i + 1] == Do(v, r[i], t, Serve)
  }

  /** A request is answered that there is no manifest exactly when it did not fail, its manifest file
      was not there at the start, and no build has put one there by then. */
  lemma NotFoundExactly(v: Server, r: seq<System>, i: nat, t: nat)
    requires Runs(v, r) && ServesAt(v, r, i, t)
    ensures IsAnswered(r[i + 1], t, NotFound) <==>
            && !r[i].disk.builders[t].failed
            && ReadPath(v.requests[t]) !in r[0].disk.store.manifests
            && !S.SomeoneHasWritten(r[i].disk, ReadPath(v.requests[t]))
  {
    RunsFit(v, r, i);
    assert S.TagFits(r[0].disk.store, r[i].disk, ReadPath(v.requests[t]));
  }

  /** What a build of the request pushes ends up where the request looks for it. */
  predicate Keeps(q: Request) {
    Tagged(q.build.name, q.build.tag) && LocalManifestPath(q.build.name, q.build.tag) == ReadPath(q)
  }

  /** That is when `name.ParseReference` gives back the requested name and tag. */
  lemma KeepsExactly(v: Server, t: nat)
    requires Valid(v) && t < |v.requests|
    requires '/' !in v.requests[t].tag && '/' !in v.requests[t].build.tag
    ensures var q := v.requests[t];
            Keeps(q) <==>
              && v.target(q.image + ":" + q.tag) == Target(q.image, q.tag)
              && q.image != "" && q.tag != "" && !HasPrefix(q.tag, "sha256:")
  {
    var q := v.requests[t];
    assert ValidRequest(v, q);
    if Keeps(q) {
      PathsDiffer(q.build.name, q.build.tag, q.image, q.tag);
    }
  }

  lemma PathsDiffer(name: string, tag: string, image: string, other: string)
    requires '/' !in tag && '/' !in other && LocalManifestPath(name, tag) == LocalManifestPath(image, other)
    ensures name == image && tag == other
  {
    var path, end := LocalManifestPath(name, tag), "/manifest.json";
    assert path == (name + "/" + tag) + end && path == (image + "/" + other) + end;
    assert path[..|path| - |end|] == name + "/" + tag;
    assert path[..|path| - |end|] == image + "/" + other;
    D.LastSlash(name, tag, image, other);
  }

  lemma FinishedHasWritten(v: Server, start: Store, s: System, m: nat)
    requires Fits(v, start, s) && m < |v.requests| && S.AtEnd(s.disk.builders[m])
    ensures var q := v.requests[m];
            if Tagged(q.build.name, q.build.tag) then
              S.HasWritten(s.disk.builders[m], LocalManifestPath(q.build.name, q.build.tag))
            else forall path :: !S.HasWritten(s.disk.builders[m], path)
  {
    S.BuildWritesItsTag(v.w, v.requests[m].build);
  }

  /** Every request is kept, and no tag has a slash, as the router sees to. */
  ghost predicate AllKept(v: Server) {
    forall t :: 0 <= t < |v.requests| ==> Keeps(v.requests[t]) && '/' !in v.requests[t].tag
  }

  lemma WrittenForReference(v: Server, start: Store, s: System, m: nat, t: nat)
    requires Valid(v) && Fits(v, start, s) && AllKept(v) && m < |v.requests| && t < |v.requests|
    ensures S.HasWritten(s.disk.builders[m], ReadPath(v.requests[t])) <==>
            S.AtEnd(s.disk.builders[m]) && s.calls.refs[m] == s.calls.refs[t]
  {
    var p, q := v.requests[m], v.requests[t];
    S.BuildWritesItsTag(v.w, p.build);
    if ReadPath(p) == ReadPath(q) {
      PathsDiffer(p.image, p.tag, q.image, q.tag);
    }
    if s.calls.refs[m] == s.calls.refs[t] {
      SameTarget(v, s, t, m);
    }
  }

  /** With kept references: not found exactly when the request did not fail, its manifest file was not
      there at the start, and no build of its reference has come to a good end by then. */
  lemma NotFoundForKeptReferences(v: Server, r: seq<System>, i: nat, t: nat)
    requires Runs(v, r) && ServesAt(v, r, i, t) && AllKept(v)
    ensures |r[i].disk.builders| == |v.requests| == |r[i].calls.refs|
    ensures IsAnswered(r[i + 1], t, NotFound) <==>
            && !r[i].disk.builders[t].failed
            && ReadPath(v.requests[t]) !in r[0].disk.store.manifests
            && forall m :: 0 <= m < |v.requests| && r[i].calls.refs[m] == r[i].calls.refs[t] ==>
                 !S.AtEnd(r[i].disk.builders[m])
  {
    RunsFit(v, r, i);
    NotFoundExactly(v, r, i, t);
    forall m | 0 <= m < |v.requests|
      ensures S.HasWritten(r[i].disk.builders[m], ReadPath(v.requests[t])) <==>
              S.AtEnd(r[i].disk.builders[m]) && r[i].calls.refs[m] == r[i].calls.refs[t]
    {
      WrittenForReference(v, r[0].disk.store, r[i], m, t);
    }
  }

  lemma LeaderIsAtEnd(v: Server, start: Store, s: System, t: nat)
    requires Fits(v, start, s) && t < |v.requests|
    requires BuildOver(s.calls.phase[t], t) && !s.disk.builders[t].failed
    ensures S.AtEnd(s.disk.builders[t])
  {
    assert RequestFits(v, start, s, t);
  }

  /** A leader whose build succeeded is answered with a manifest when its reference is kept; and only
      then, unless the manifest file comes from elsewhere. */
  lemma LeadersAreServedExactly(v: Server, r: seq<System>, i: nat, t: nat)
    requires Runs(v, r) && ServesAt(v, r, i, t)
    requires r[i].calls.phase[t] == F.Done(t) && !r[i].disk.builders[t].failed
    ensures var path := ReadPath(v.requests[t]);
            var served := exists c :: IsAnswered(r[i + 1], t, Manifest(c));
            && (Keeps(v.requests[t]) ==> served)
            && (path !in r[0].disk.store.manifests && S.OnlyBuildFor(r[i].disk, t, path) ==>
                  (served <==> Keeps(v.requests[t])))
  {
    var start, s, path := r[0].disk.store, r[i], ReadPath(v.requests[t]);
    RunsFit(v, r, i);
    LeaderIsAtEnd(v, start, s, t);
    FinishedHasWritten(v, start, s, t);
    assert S.TagFits(start, s.disk, path);
    if path in s.disk.store.manifests {
      assert IsAnswered(r[i + 1], t, Manifest(s.disk.store.manifests[path]));
    } else {
      assert IsAnswered(r[i + 1], t, NotFound);
    }
  }

  // ----- requests that are sure of their manifest -----

  /** A request that has not looked, or has looked and found the manifest. */
  predicate Skips(v: Server, s: System, t: nat) {
    && Sizes(v, s) && t < |v.requests|
    && ReadPath(v.requests[t]) in s.disk.store.manifests
    && (s.front[t] == Asked || s.front[t] == Found || (s.front[t].Answered? && s.front[t].answer.Manifest?))
    && s.calls.phase[t] == F.Start
  }

  /** A follower that is past its leader's build. */
  predicate Behind(v: Server, s: System, t: nat) {
    && Sizes(v, s) && t < |v.requests|
    && ReadPath(v.requests[t]) in s.disk.store.manifests
    && (if s.front[t].Answered? then s.front[t].answer.Manifest?
        else s.front[t] == Called && (s.calls.phase[t].Reading? || DoneAsFollower(s.calls.phase[t], t)))
  }

  predicate DoneAsFollower(p: F.Phase, t: nat) {
    p.Done? && p.mut != t
  }

  lemma SkipsStays(v: Server, start: Store, s: System, t: nat, u: nat, a: Act)
    requires Valid(v) && Fits(v, start, s) && Able(v, s, u, a) && Skips(v, s, t)
    ensures Skips(v, Do(v, s, u, a), t)
  {
    DoKeepsFit(v, start, s, u, a);
    assert RequestFits(v, start, s, t);
    if a.Protocol? {
      OthersUntouched(s.calls, u, t);
    }
  }

  /** A follower stays a follower until it is answered. */
  lemma FollowerGoesOn(s: F.State, t: nat, u: nat)
    requires F.Inv(s) && F.Enabled(s, u) && t < |s.phase|
    requires s.phase[t].Reading? || DoneAsFollower(s.phase[t], t)
    ensures |F.Step(s, u).phase| == |s.phase|
    ensures F.Step(s, u).phase[t].Reading? || DoneAsFollower(F.Step(s, u).phase[t], t)
  {
    if u == t {
      OwnStep(s, t);
      F.FollowerOf(s, t, s.phase[t].mut);
    } else {
      OthersUntouched(s, u, t);
    }
  }

  lemma BehindStays(v: Server, start: Store, s: System, t: nat, u: nat, a: Act)
    requires Valid(v) && Fits(v, start, s) && Able(v, s, u, a) && Behind(v, s, t)
    ensures Behind(v, Do(v, s, u, a), t)
  {
    DoKeepsFit(v, start, s, u, a);
    if a.Protocol? && !s.front[t].Answered? {
      FollowerGoesOn(s.calls, t, u);
    } else if a == Serve && u == t {
      FollowerNeverFails(v, start, s, t);
    }
  }

  lemma FollowerNeverFails(v: Server, start: Store, s: System, t: nat)
    requires Fits(v, start, s) && t < |v.requests|
    requires s.calls.phase[t].Reading? || DoneAsFollower(s.calls.phase[t], t)
    ensures !s.disk.builders[t].failed
  {
    assert RequestFits(v, start, s, t);
  }

  lemma SkipsOnce(v: Server, r: seq<System>, i: nat, t: nat)
    requires Runs(v, r) && i + 1 < |r| && Skips(v, r[i], t)
    ensures Skips(v, r[i + 1], t)
  {
    RunsFit(v, r, i);
    var u, a := MoveMade(v, r, i);
    SkipsStays(v, r[0].disk.store, r[i], t, u, a);
  }

  lemma BehindOnce(v: Server, r: seq<System>, i: nat, t: nat)
    requires Runs(v, r) && i + 1 < |r| && Behind(v, r[i], t)
    ensures Behind(v, r[i + 1], t)
  {
    RunsFit(v, r, i);
    var u, a := MoveMade(v, r, i);
    BehindStays(v, r[0].disk.store, r[i], t, u, a);
  }

  lemma SkipsAlong(v: Server, r: seq<System>, i: nat, j: nat, t: nat)
    requires Runs(v, r) && i <= j < |r| && Skips(v, r[i], t)
    ensures Skips(v, r[j], t)
  {
    var skips: System -> bool := s => Skips(v, s, t);
    forall k | i <= k < j
      ensures Inherited(skips, r, k)
    {
      if skips(r[k]) {
        SkipsOnce(v, r, k, t);
      }
    }
    Along(skips, r, i, j);
  }

  lemma BehindAlong(v: Server, r: seq<System>, i: nat, j: nat, t: nat)
    requires Runs(v, r) && i <= j < |r| && Behind(v, r[i], t)
    ensures Behind(v, r[j], t)
  {
    var behind: System -> bool := s => Behind(v, s, t);
    forall k | i <= k < j
      ensures Inherited(behind, r, k)
    {
      if behind(r[k]) {
        BehindOnce(v, r, k, t);
      }
    }
    Along(behind, r, i, j);
  }

  /** Once the manifest file is there, a request that has not looked yet never makes a call, so it
      builds nothing and waits for nothing, and no other answer than a manifest awaits it. */
  lemma PublishedMeansNoBuild(v: Server, r: seq<System>, i: nat, j: nat, t: nat)
    requires Runs(v, r) && i <= j < |r| && t < |r[i].front| && t < |v.requests|
    requires r[i].front[t] == Asked && ReadPath(v.requests[t]) in r[i].disk.store.manifests
    ensures Skips(v, r[j], t)
  {
    RunsFit(v, r, i);
    assert RequestFits(v, r[0].disk.store, r[i], t);
    SkipsAlong(v, r, i, j, t);
  }

  lemma WrittenForAll(v: Server, start: Store, s: System, t: nat, m: nat)
    requires Valid(v) && Fits(v, start, s) && t < |v.requests| && m < |v.requests| && Keeps(v.requests[t])
    requires s.calls.refs[t] == s.calls.refs[m] && BuildOver(s.calls.phase[m], m) && !s.disk.builders[m].failed
    ensures ReadPath(v.requests[t]) in s.disk.store.manifests
  {
    LeaderIsAtEnd(v, start, s, m);
    SameTarget(v, s, t, m);
    FinishedHasWritten(v, start, s, m);
    assert S.TagFits(start, s.disk, ReadPath(v.requests[t]));
  }

  lemma BehindAfterSuccess(v: Server, start: Store, s: System, t: nat, m: nat)
    requires Valid(v) && Fits(v, start, s) && t < |v.requests| && Keeps(v.requests[t])
    requires t < |s.calls.phase| && s.calls.phase[t] == F.Reading(m) && m in s.calls.builds
    requires m < |s.disk.builders| && !s.disk.builders[m].failed
    ensures Behind(v, s, t)
  {
    F.FollowerOf(s.calls, t, m);
    assert F.BuildsFit(s.calls);
    WrittenForAll(v, start, s, t, m);
    assert RequestFits(v, start, s, t);
  }

  /** A follower that holds the read lock after its leader's successful build is answered with a
      manifest, whatever else happens before its answer. */
  lemma FollowersOfSuccessAreServed(v: Server, r: seq<System>, i: nat, j: nat, t: nat, m: nat)
    requires Runs(v, r) && i <= j < |r| && t < |v.requests| && Keeps(v.requests[t])
    requires t < |r[i].calls.phase| && r[i].calls.phase[t] == F.Reading(m) && m in r[i].calls.builds
    requires m < |r[i].disk.builders| && !r[i].disk.builders[m].failed
    ensures Behind(v, r[j], t)
  {
    RunsFit(v, r, i);
    BehindAfterSuccess(v, r[0].disk.store, r[i], t, m);
    BehindAlong(v, r, i, j, t);
  }

  /** Requests for one reference push to one place. */
  lemma SameTarget(v: Server, s: System, t: nat, m: nat)
    requires Valid(v) && Fixed(v, s) && t < |v.requests| && m < |v.requests| && s.calls.refs[t] == s.calls.refs[m]
    ensures v.requests[t].build.name == v.requests[m].build.name && v.requests[t].build.tag == v.requests[m].build.tag
  {
    assert ValidRequest(v, v.requests[t]) && ValidRequest(v, v.requests[m]);
  }

  // ----- progress -----

  predicate AllAnswered(s: System) {
    forall t :: 0 <= t < |s.front| ==> s.front[t].Answered?
  }

  /** While some request has no answer, some request can move. */
  lemma SomeRequestMoves(v: Server, r: seq<System>, i: nat) returns (t: nat, a: Act)
    requires Runs(v, r) && i < |r| && !AllAnswered(r[i])
    ensures Able(v, r[i], t, a)
  {
    RunsFit(v, r, i);
    var s := r[i];
    t :| 0 <= t < |s.front| && !s.front[t].Answered?;
    if s.front[t] == Asked {
      a := Look;
    } else if s.front[t] == Found || s.calls.phase[t].Done? {
      a := Serve;
    } else {
      t := F.SomeStepEnabled(s.calls, t);
      a := ProtocolOrWork(v, r[0].disk.store, s, t);
    }
  }

  lemma ProtocolOrWork(v: Server, start: Store, s: System, t: nat) returns (a: Act)
    requires Fits(v, start, s) && F.Enabled(s.calls, t) && (s.front[t] == Called || s.calls.phase[t] != F.Start)
    ensures Able(v, s, t, a)
  {
    assert RequestFits(v, start, s, t);
    if s.calls.phase[t].Building? && s.disk.builders[t].todo != [] {
      a := Work(if s.disk.builders[t].temp == None then S.Act.Look else S.Rename);
    } else {
      a := Protocol;
    }
  }

  function FrontLeft(f: Front): nat {
    match f
    case Asked => 2
    case Found => 1
    case Called => 1
    case Answered(_) => 0
  }

  /** Every operation takes at most a look and a rename. */
  function BuilderLeft(b: S.Builder): nat {
    2 * |b.todo| - (if b.todo != [] && b.temp.Some? then 1 else 0)
  }

  function FrontsLeft(front: seq<Front>): nat {
    if front == [] then 0 else FrontLeft(front[0]) + FrontsLeft(front[1..])
  }

  function BuildersLeft(builders: seq<S.Builder>): nat {
    if builders == [] then 0 else BuilderLeft(builders[0]) + BuildersLeft(builders[1..])
  }

  function Cost(s: System): nat {
    FrontsLeft(s.front) + F.Work(s.calls.phase) + BuildersLeft(s.disk.builders)
  }

  lemma {:induction false} FrontUpdate(front: seq<Front>, t: nat, f: Front)
    requires t < |front|
    ensures FrontsLeft(front[t := f]) == FrontsLeft(front) - FrontLeft(front[t]) + FrontLeft(f)
  {
    if t > 0 {
      assert front[t := f][1..] == front[1..][t - 1 := f];
      FrontUpdate(front[1..], t - 1, f);
    }
  }

  lemma {:induction false} BuilderUpdate(builders: seq<S.Builder>, t: nat, b: S.Builder)
    requires t < |builders|
    ensures BuildersLeft(builders[t := b]) == BuildersLeft(builders) - BuilderLeft(builders[t]) + BuilderLeft(b)
  {
    if t > 0 {
      assert builders[t := b][1..] == builders[1..][t - 1 := b];
      BuilderUpdate(builders[1..], t - 1, b);
    }
  }

  lemma TurnsAreFew(w: World, st: Store, b: S.Builder, a: S.Act)
    requires S.CanTurn(b, a)
    ensures BuilderLeft(S.Turn(w, st, b, a).1) < BuilderLeft(b)
  {
  }

  lemma MovesDecreaseCost(v: Server, s: System, t: nat, a: Act)
    requires Able(v, s, t, a)
    ensures Cost(Do(v, s, t, a)) < Cost(s)
  {
    match a
    case Look => FrontUpdate(s.front, t, Do(v, s, t, a).front[t]);
    case Serve => FrontUpdate(s.front, t, Do(v, s, t, a).front[t]);
    case Protocol => F.StepsDecreaseWork(s.calls, t);
    case Work(turn) =>
      TurnsAreFew(v.w, s.disk.store, s.disk.builders[t], turn);
      BuilderUpdate(s.disk.builders, t, S.Turn(v.w, s.disk.store, s.disk.builders[t], turn).1);
  }

  lemma {:induction false} CostAlongRun(v: Server, r: seq<System>, i: nat)
    requires Goes(v, r) && i < |r|
    ensures Cost(r[i]) + i <= Cost(r[0])
  {
    if i > 0 {
      CostAlongRun(v, r, i - 1);
      var t, a := MoveMade(v, r, i - 1);
      MovesDecreaseCost(v, r[i - 1], t, a);
    }
  }

  /** The operations that the builds have planned, all together. */
  function Planned(builders: seq<S.Builder>): nat {
    if builders == [] then 0 else |builders[0].plan| + Planned(builders[1..])
  }

  lemma {:induction false} FrontsAtStart(front: seq<Front>)
    requires forall t :: 0 <= t < |front| ==> front[t] == Asked
    ensures FrontsLeft(front) == 2 * |front|
  {
    if front != [] {
      FrontsAtStart(front[1..]);
    }
  }

  lemma {:induction false} BuildersAtStart(builders: seq<S.Builder>)
    requires forall t :: 0 <= t < |builders| ==> builders[t].todo == builders[t].plan && builders[t].temp == None
    ensures BuildersLeft(builders) == 2 * Planned(builders)
  {
    if builders != [] {
      BuildersAtStart(builders[1..]);
    }
  }

  lemma CostAtStart(v: Server, s: System)
    requires Begins(v, s)
    ensures Cost(s) == 8 * |v.requests| + 2 * Planned(s.disk.builders)
  {
    FrontsAtStart(s.front);
    F.InitialWork(s.calls.phase);
    BuildersAtStart(s.disk.builders);
  }

  /** With n requests whose builds have planned p operations no run takes more than 8n + 2p moves. */
  lemma RunsAreShort(v: Server, r: seq<System>)
    requires Runs(v, r)
    ensures |r| - 1 <= 8 * |v.requests| + 2 * Planned(r[0].disk.builders)
  {
    CostAlongRun(v, r, |r| - 1);
    CostAtStart(v, r[0]);
  }

  ghost predicate CannotMove(v: Server, s: System) {
    forall t: nat, a: Act :: !Able(v, s, t, a)
  }

  lemma AnsweredIsStill(v: Server, start: Store, s: System, t: nat, a: Act)
    requires Sizes(v, s) && t < |v.requests| && FrontFits(v, start, s, t) && s.front[t].Answered?
    ensures !Able(v, s, t, a)
  {
    assert !s.calls.phase[t].Building?;
  }

  lemma NobodyMoves(v: Server, start: Store, s: System)
    requires Fits(v, start, s) && AllAnswered(s)
    ensures CannotMove(v, s)
  {
    forall t: nat, a: Act
      ensures !Able(v, s, t, a)
    {
      if t < |v.requests| {
        assert RequestFits(v, start, s, t);
        AnsweredIsStill(v, start, s, t, a);
      }
    }
  }

  /** A run that cannot go on has every request answered, and one that can has not. */
  lemma RequestsAreAnswered(v: Server, r: seq<System>, i: nat)
    requires Runs(v, r) && i < |r|
    ensures CannotMove(v, r[i]) <==> AllAnswered(r[i])
  {
    if !AllAnswered(r[i]) {
      var t, a := SomeRequestMoves(v, r, i);
    } else {
      RunsFit(v, r, i);
      NobodyMoves(v, r[0].disk.store, r[i]);
    }
  }

  // ----- the gap -----

  // Two requests for one reference, with nothing stored, move by move.

  function GapFront(k: nat): seq<Front> {
    if k == 0 then [Asked, Asked]
    else if k == 1 then [Called, Asked]
    else if k < 7 then [Called, Called]
    else [Called, Answered(NotFound)]
  }

  /** Two looks, then the calls, then an answer. */
  function GapCalls(ref: string, k: nat): F.State {
    F.EarlyState(ref, if k < 2 then 0 else if k < 6 then k - 2 else 4)
  }

  function Waiting(v: Server, t: nat): S.Builder
    requires t < |v.requests|
  {
    var plan := BuildOps(v.w, v.requests[t].build);
    S.Builder(plan, plan, None, false)
  }

  function GapDisk(v: Server): S.System
    requires |v.requests| == 2
  {
    S.System(Store(map[], map[]), [Waiting(v, 0), Waiting(v, 1)])
  }

  function GapState(v: Server, k: nat): System
    requires |v.requests| == 2
  {
    System(GapFront(k), GapCalls(Ref(v.requests[0]), k), GapDisk(v))
  }

  lemma GapDiskBegins(v: Server)
    requires Valid(v) && |v.requests| == 2
    ensures S.Init(v.w, GapDisk(v))
  {
    assert ValidRequest(v, v.requests[0]) && ValidRequest(v, v.requests[1]);
    assert S.Planned(v.w, Waiting(v, 0).plan) && S.Planned(v.w, Waiting(v, 1).plan);
  }

  lemma GapFixed(v: Server)
    requires |v.requests| == 2 && Ref(v.requests[0]) == Ref(v.requests[1])
    ensures Fixed(v, GapState(v, 0))
  {
  }

  lemma GapBegins(v: Server)
    requires Valid(v) && |v.requests| == 2 && Ref(v.requests[0]) == Ref(v.requests[1])
    ensures Begins(v, GapState(v, 0))
  {
    GapDiskBegins(v);
    F.EarlyBegins(Ref(v.requests[0]));
    GapFixed(v);
  }

  lemma GapMoves(v: Server, k: nat)
    requires |v.requests| == 2 && k < 7
    ensures Moves(v, GapState(v, k), GapState(v, k + 1))
  {
    var s, t := GapState(v, k), if k == 0 then 0 else if 2 <= k <= 5 then F.EarlyCaller(k - 2) else 1;
    var a := if k < 2 then Look else if k < 6 then Protocol else Serve;
    if 2 <= k <= 5 {
      F.EarlyStep(Ref(v.requests[0]), k - 2);
    }
    assert Able(v, s, t, a);
    assert Do(v, s, t, a).front == GapFront(k + 1);
    assert Do(v, s, t, a) == GapState(v, k + 1);
  }

  /** Whatever two requests for one reference would build: the second one can take the read lock
      before the first one has locked, and is then told that there is no manifest, although nothing
      has been built and nothing has failed. */
  lemma FollowerInTheGapFindsNothing(v: Server) returns (r: seq<System>)
    requires Valid(v) && |v.requests| == 2 && Ref(v.requests[0]) == Ref(v.requests[1])
    ensures Runs(v, r)
    ensures var s := r[|r| - 1];
            && s.front == [Called, Answered(NotFound)]
            && s.calls.phase == [F.WantLock, F.Done(0)] && s.calls.builds == []
  {
    r := seq(8, k requires 0 <= k < 8 => GapState(v, k));
    GapBegins(v);
    forall k | 0 <= k < 7
      ensures MovesAt(v, r, k)
    {
      GapMoves(v, k);
    }
  }
}
