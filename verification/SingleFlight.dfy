/** The single-flight protocol of `buildAndSave` in pkg/handler/handler.go, as a transition system:
    any number of calls, each for some reference, interleaved step by step.

    Call `t` allocates mutex `t` for its own `LoadOrStore`.  The winner takes the write lock in
    two steps, as `sync.RWMutex` does: it first announces itself, which stops new readers, and
    gets the lock once the readers that are already in have left. */
module SingleFlight {
  import opened SyncMap

  datatype Phase =
    | Start                  // before LoadOrStore
    | WantLock               // won LoadOrStore, before mut.Lock()
    | Locking                // inside mut.Lock(), waiting for readers
    | Building               // write lock held, build running
    | Deleting               // build over, deferred Delete next
    | Unlocking              // entry deleted, deferred Unlock next
    | WantRead(mut: nat)     // lost LoadOrStore, before mut.RLock()
    | Reading(mut: nat)      // read lock held, deferred RUnlock next
    | Done(mut: nat)         // returned; used this mutex

  datatype RWMutex = RWMutex(readers: set<nat>, pending: bool, held: bool)

  datatype State = State(
    refs: seq<string>,
    phase: seq<Phase>,
    mutexes: seq<RWMutex>,
    buildMutex: map<string, nat>,
    builds: seq<nat>)        // the calls that have begun to build, in order

  predicate Shape(s: State) {
    |s.phase| == |s.refs| == |s.mutexes|
  }

  predicate Init(s: State) {
    && Shape(s)
    && (forall t :: 0 <= t < |s.phase| ==> s.phase[t] == Start)
    && (forall t :: 0 <= t < |s.mutexes| ==> s.mutexes[t] == RWMutex({}, false, false))
    && s.buildMutex == map[]
    && s.builds == []
  }

  predicate Enabled(s: State, t: nat)
    requires Shape(s)
  {
    && t < |s.phase|
    && match s.phase[t]
       case Done(_) => false
       case Locking => s.mutexes[t].readers == {} && !s.mutexes[t].held
       case WantRead(m) => m < |s.mutexes| && !s.mutexes[m].pending
       case Reading(m) => m < |s.mutexes|
       case _ => true
  }

  function Go(s: State, t: nat, p: Phase): State
    requires t < |s.phase|
  {
    s.(phase := s.phase[t := p])
  }

  function SetMutex(s: State, t: nat, m: RWMutex): State
    requires t < |s.mutexes|
  {
    s.(mutexes := s.mutexes[t := m])
  }

  /** The one step that call `t` can take. */
  function Step(s: State, t: nat): State
    requires Shape(s) && Enabled(s, t)
  {
    match s.phase[t]
    case Start =>
      var (mut, loaded) := Loaded(s.buildMutex, s.refs[t], t);
      Go(s, t, if loaded then WantRead(mut) else WantLock).(buildMutex := Stored(s.buildMutex, s.refs[t], t))
    case WantLock =>
      SetMutex(Go(s, t, Locking), t, s.mutexes[t].(pending := true))
    case Locking =>
      SetMutex(Go(s, t, Building), t, s.mutexes[t].(held := true)).(builds := s.builds + [t])
    case Building =>
      Go(s, t, Deleting)
    case Deleting =>
      Go(s, t, Unlocking).(buildMutex := s.buildMutex - {s.refs[t]})
    case Unlocking =>
      SetMutex(Go(s, t, Done(t)), t, s.mutexes[t].(pending := false, held := false))
    case WantRead(m) =>
      SetMutex(Go(s, t, Reading(m)), m, s.mutexes[m].(readers := s.mutexes[m].readers + {t}))
    case Reading(m) =>
      SetMutex(Go(s, t, Done(m)), m, s.mutexes[m].(readers := s.mutexes[m].readers - {t}))
  }

  predicate Next(s: State, s': State)
    requires Shape(s)
  {
    exists t: nat | t < |s.phase| :: Enabled(s, t) && s' == Step(s, t)
  }

  // ----- the invariant -----

  /** Between winning `LoadOrStore` and `Delete`. */
  predicate Owning(p: Phase) {
    p.WantLock? || p.Locking? || p.Building? || p.Deleting?
  }

  predicate HoldsLock(p: Phase) {
    p.Building? || p.Deleting? || p.Unlocking?
  }

  /** Call `m` has won `LoadOrStore` at some time. */
  predicate Leader(s: State, m: nat)
    requires Shape(s)
  {
    m < |s.phase| && (Owning(s.phase[m]) || s.phase[m].Unlocking? || s.phase[m] == Done(m))
  }

  predicate Uses(p: Phase, m: nat) {
    p == WantRead(m) || p == Reading(m) || p == Done(m)
  }

  ghost predicate MutexesFit(s: State)
    requires Shape(s)
  {
    forall m :: 0 <= m < |s.mutexes| ==>
      && s.mutexes[m].held == HoldsLock(s.phase[m])
      && s.mutexes[m].pending == (s.phase[m].Locking? || HoldsLock(s.phase[m]))
      && (s.mutexes[m].held ==> s.mutexes[m].readers == {})
      && (forall t: nat :: t in s.mutexes[m].readers <==> t < |s.phase| && s.phase[t] == Reading(m))
  }

  ghost predicate MapFits(s: State)
    requires Shape(s)
  {
    && (forall t :: 0 <= t < |s.phase| && Owning(s.phase[t]) ==>
          s.refs[t] in s.buildMutex && s.buildMutex[s.refs[t]] == t)
    && (forall r :: r in s.buildMutex ==>
          s.buildMutex[r] < |s.phase| && Owning(s.phase[s.buildMutex[r]]) && s.refs[s.buildMutex[r]] == r)
  }

  /** Whoever uses a mutex uses that of a leader for the same reference. */
  ghost predicate FollowerFits(s: State, t: nat)
    requires Shape(s) && t < |s.phase|
  {
    var p := s.phase[t];
    p.WantRead? || p.Reading? || p.Done? ==>
      Leader(s, p.mut) && s.refs[p.mut] == s.refs[t] && (t == p.mut ==> p.Done?)
  }

  ghost predicate FollowersFit(s: State)
    requires Shape(s)
  {
    forall t :: 0 <= t < |s.phase| ==> FollowerFits(s, t)
  }

  /** No call has begun to build twice. */
  ghost predicate BuildsDistinct(s: State) {
    forall i, j :: 0 <= i < j < |s.builds| ==> s.builds[i] != s.builds[j]
  }

  ghost predicate BuildsFit(s: State)
    requires Shape(s)
  {
    && BuildsDistinct(s)
    && (forall t: nat :: t in s.builds <==> t < |s.phase| && (HoldsLock(s.phase[t]) || s.phase[t] == Done(t)))
  }

  ghost predicate Inv(s: State) {
    Shape(s) && MutexesFit(s) && MapFits(s) && FollowersFit(s) && BuildsFit(s)
  }

  lemma InitKeepsInv(s: State)
    requires Init(s)
    ensures Inv(s)
  {
  }

  // A step of the protocol, by what it touches: its own mutex, a leader's mutex as a reader, the
  // map, or none of them.

  lemma QuietStepKeepsMutexes(s: State, t: nat)
    requires Inv(s) && Enabled(s, t)
    requires s.phase[t].Start? || s.phase[t].Building? || s.phase[t].Deleting?
    ensures Shape(Step(s, t)) && MutexesFit(Step(s, t))
  {
  }

  lemma OwnerStepKeepsMutexes(s: State, t: nat)
    requires Inv(s) && Enabled(s, t)
    requires s.phase[t].WantLock? || s.phase[t].Locking? || s.phase[t].Unlocking?
    ensures Shape(Step(s, t)) && MutexesFit(Step(s, t))
  {
  }

  lemma ReaderStepKeepsMutexes(s: State, t: nat)
    requires Inv(s) && Enabled(s, t)
    requires s.phase[t].WantRead? || s.phase[t].Reading?
    ensures Shape(Step(s, t)) && MutexesFit(Step(s, t))
  {
  }

  lemma StepKeepsMutexes(s: State, t: nat)
    requires Inv(s) && Enabled(s, t)
    ensures Shape(Step(s, t)) && MutexesFit(Step(s, t))
  {
    match s.phase[t]
    case Start => QuietStepKeepsMutexes(s, t);
    case Building => QuietStepKeepsMutexes(s, t);
    case Deleting => QuietStepKeepsMutexes(s, t);
    case WantRead(_) => ReaderStepKeepsMutexes(s, t);
    case Reading(_) => ReaderStepKeepsMutexes(s, t);
    case _ => OwnerStepKeepsMutexes(s, t);
  }

  lemma StartKeepsMap(s: State, t: nat)
    requires Inv(s) && Enabled(s, t) && s.phase[t].Start?
    ensures Shape(Step(s, t)) && MapFits(Step(s, t))
  {
  }

  lemma DeleteKeepsMap(s: State, t: nat)
    requires Inv(s) && Enabled(s, t) && s.phase[t].Deleting?
    ensures Shape(Step(s, t)) && MapFits(Step(s, t))
  {
  }

  lemma OtherStepKeepsMap(s: State, t: nat)
    requires Inv(s) && Enabled(s, t) && !s.phase[t].Start? && !s.phase[t].Deleting?
    ensures Shape(Step(s, t)) && MapFits(Step(s, t))
  {
    assert Step(s, t).phase[t].Done? || Owning(Step(s, t).phase[t]) == Owning(s.phase[t]);
  }

  lemma StepKeepsMap(s: State, t: nat)
    requires Inv(s) && Enabled(s, t)
    ensures Shape(Step(s, t)) && MapFits(Step(s, t))
  {
    match s.phase[t]
    case Start => StartKeepsMap(s, t);
    case Deleting => DeleteKeepsMap(s, t);
    case _ => OtherStepKeepsMap(s, t);
  }

  lemma LeaderStays(s: State, t: nat, m: nat)
    requires Inv(s) && Enabled(s, t) && Leader(s, m)
    ensures Shape(Step(s, t)) && Leader(Step(s, t), m)
  {
  }

  lemma OwnFollowerFits(s: State, t: nat)
    requires Inv(s) && Enabled(s, t)
    ensures Shape(Step(s, t)) && FollowerFits(Step(s, t), t)
  {
    assert FollowerFits(s, t);
    match s.phase[t]
    case Start =>
      if s.refs[t] in s.buildMutex {
        LeaderStays(s, t, s.buildMutex[s.refs[t]]);
      }
    case WantRead(m) => LeaderStays(s, t, m);
    case Reading(m) => LeaderStays(s, t, m);
    case _ =>
  }

  lemma OtherFollowerFits(s: State, t: nat, u: nat)
    requires Inv(s) && Enabled(s, t) && u < |s.phase| && u != t
    ensures Shape(Step(s, t)) && FollowerFits(Step(s, t), u)
  {
    var p := s.phase[u];
    assert FollowerFits(s, u);
    if p.WantRead? || p.Reading? || p.Done? {
      LeaderStays(s, t, p.mut);
    }
  }

  lemma StepKeepsFollowers(s: State, t: nat)
    requires Inv(s) && Enabled(s, t)
    ensures Shape(Step(s, t)) && FollowersFit(Step(s, t))
  {
    forall u | 0 <= u < |s.phase|
      ensures FollowerFits(Step(s, t), u)
    {
      if u == t {
        OwnFollowerFits(s, t);
      } else {
        OtherFollowerFits(s, t, u);
      }
    }
  }

  lemma OtherStepKeepsBuilds(s: State, t: nat)
    requires Inv(s) && Enabled(s, t) && !s.phase[t].Locking?
    ensures Shape(Step(s, t)) && BuildsFit(Step(s, t))
  {
    assert FollowerFits(s, t);
    assert Step(s, t).builds == s.builds;
  }

  lemma StepKeepsBuilds(s: State, t: nat)
    requires Inv(s) && Enabled(s, t)
    ensures Shape(Step(s, t)) && BuildsFit(Step(s, t))
  {
    if !s.phase[t].Locking? {
      OtherStepKeepsBuilds(s, t);
    }
  }

  lemma StepKeepsInv(s: State, t: nat)
    requires Inv(s) && Enabled(s, t)
    ensures Inv(Step(s, t))
  {
    StepKeepsMutexes(s, t);
    StepKeepsMap(s, t);
    StepKeepsFollowers(s, t);
    StepKeepsBuilds(s, t);
  }

  lemma FollowerOf(s: State, t: nat, m: nat)
    requires Inv(s) && t < |s.phase| && Uses(s.phase[t], m)
    ensures Leader(s, m) && s.refs[m] == s.refs[t]
    ensures s.phase[t] == Reading(m) ==> !HoldsLock(s.phase[m])
  {
    assert FollowerFits(s, t);
    if s.phase[t] == Reading(m) {
      assert t in s.mutexes[m].readers;
    }
  }

  // ----- runs -----

  /** A finite run: each state follows from the one before by a step of some call. */
  ghost predicate Run(b: seq<State>) {
    && b != [] && Init(b[0])
    && (forall i :: 0 <= i < |b| ==> Shape(b[i]))
    && (forall i :: 0 <= i < |b| - 1 ==> StepAt(b, i))
  }

  ghost predicate StepAt(b: seq<State>, i: nat)
    requires i + 1 < |b| && Shape(b[i])
  {
    Next(b[i], b[i + 1])
  }

  lemma StepTaken(b: seq<State>, i: nat) returns (t: nat)
    requires Run(b) && i + 1 < |b|
    ensures Enabled(b[i], t) && b[i + 1] == Step(b[i], t)
  {
    assert StepAt(b, i);
    t :| t < |b[i].phase| && Enabled(b[i], t) && b[i + 1] == Step(b[i], t);
  }

  lemma {:induction false} RunKeepsInv(b: seq<State>, i: nat)
    requires Run(b) && i < |b|
    ensures Inv(b[i]) && b[i].refs == b[0].refs
  {
    if i == 0 {
      InitKeepsInv(b[0]);
    } else {
      RunKeepsInv(b, i - 1);
      var t := StepTaken(b, i - 1);
      StepKeepsInv(b[i - 1], t);
    }
  }

  /** Single flight: in every state of every run, at most one call per reference is between its
      winning `LoadOrStore` and its `Delete`, and the map holds that call's mutex and nothing else. */
  lemma AtMostOneOwner(b: seq<State>, i: nat)
    requires Run(b) && i < |b|
    ensures forall t, u :: 0 <= t < u < |b[i].phase| && Owning(b[i].phase[t]) && Owning(b[i].phase[u]) ==>
              b[i].refs[t] != b[i].refs[u]
    ensures forall r :: r in b[i].buildMutex <==>
              exists t :: 0 <= t < |b[i].phase| && Owning(b[i].phase[t]) && b[i].refs[t] == r
    ensures forall t :: 0 <= t < |b[i].phase| && Owning(b[i].phase[t]) ==>
              b[i].refs[t] in b[i].buildMutex && b[i].buildMutex[b[i].refs[t]] == t
  {
    RunKeepsInv(b, i);
  }

  /** The deferred `Delete` removes the entry of the call that runs it, and no other entry. */
  lemma DeleteRemovesOwnEntry(b: seq<State>, i: nat, t: nat)
    requires Run(b) && i < |b| && t < |b[i].phase| && b[i].phase[t].Deleting?
    ensures b[i].refs[t] in b[i].buildMutex && b[i].buildMutex[b[i].refs[t]] == t
    ensures Enabled(b[i], t)
    ensures forall r :: r in b[i].buildMutex && r != b[i].refs[t] ==>
              r in Step(b[i], t).buildMutex && Step(b[i], t).buildMutex[r] == b[i].buildMutex[r]
    ensures b[i].refs[t] !in Step(b[i], t).buildMutex
  {
    RunKeepsInv(b, i);
  }

  // ----- ordering of followers and builds -----

  /** Nobody holds a read lock while the owner of the mutex builds, deletes or has yet to unlock. */
  lemma NoReaderDuringBuild(b: seq<State>, i: nat, t: nat, m: nat)
    requires Run(b) && i < |b| && t < |b[i].phase| && b[i].phase[t] == Reading(m)
    ensures m < |b[i].phase| && !HoldsLock(b[i].phase[m])
    ensures b[i].phase[m].WantLock? || b[i].phase[m].Locking? || b[i].phase[m] == Done(m)
    ensures b[i].refs[m] == b[i].refs[t]
  {
    RunKeepsInv(b, i);
    FollowerOf(b[i], t, m);
  }

  lemma {:induction false} BuildsGrow(b: seq<State>, i: nat, j: nat, m: nat)
    requires Run(b) && i <= j < |b| && m in b[i].builds
    ensures m in b[j].builds
    decreases j
  {
    if i < j {
      BuildsGrow(b, i, j - 1, m);
      var u := StepTaken(b, j - 1);
    }
  }

  /** A follower that has the read lock after its leader got the write lock has it only once that
      build is over, its entry deleted and the write lock released. */
  lemma ReadAfterLockIsReadAfterBuild(b: seq<State>, i: nat, j: nat, t: nat, m: nat)
    requires Run(b) && i <= j < |b| && m in b[i].builds
    requires t < |b[j].phase| && b[j].phase[t] == Reading(m)
    ensures m < |b[j].phase| && b[j].phase[m] == Done(m)
    ensures b[j].refs[t] in b[j].buildMutex ==> b[j].buildMutex[b[j].refs[t]] != m
  {
    BuildsGrow(b, i, j, m);
    NoReaderDuringBuild(b, j, t, m);
    RunKeepsInv(b, j);
  }

  lemma {:induction false} LockerGoesOn(b: seq<State>, i: nat, j: nat, m: nat)
    requires Run(b) && i <= j < |b| && m < |b[i].phase| && (b[i].phase[m].Locking? || HoldsLock(b[i].phase[m]))
    ensures m < |b[j].phase|
    ensures b[j].phase[m].Locking? || HoldsLock(b[j].phase[m]) || b[j].phase[m] == Done(m)
    decreases j
  {
    if i < j {
      LockerGoesOn(b, i, j - 1, m);
      var u := StepTaken(b, j - 1);
    }
  }

  lemma DoneStays(s: State, u: nat, m: nat)
    requires Shape(s) && Enabled(s, u) && m < |s.phase|
    ensures s.phase[m] == Done(m) ==> m < |Step(s, u).phase| && Step(s, u).phase[m] == Done(m)
  {
  }

  lemma NoNewReader(s: State, u: nat, t: nat, m: nat)
    requires Inv(s) && Enabled(s, u) && m < |s.phase| && (s.phase[m].Locking? || HoldsLock(s.phase[m]))
    requires t < |s.phase| && Step(s, u).phase[t] == Reading(m)
    ensures s.phase[t] == Reading(m)
  {
    assert s.mutexes[m].pending;
  }

  lemma ReadersBefore(b: seq<State>, j: nat, t: nat, m: nat)
    requires Run(b) && j + 1 < |b| && m < |b[j].phase| && m < |b[j + 1].phase| && t < |b[j + 1].phase|
    requires b[j].phase[m].Locking? || HoldsLock(b[j].phase[m]) || b[j].phase[m] == Done(m)
    requires b[j + 1].phase[m] != Done(m) && b[j + 1].phase[t] == Reading(m)
    ensures b[j].phase[m] != Done(m) && t < |b[j].phase| && b[j].phase[t] == Reading(m)
  {
    RunKeepsInv(b, j);
    var u := StepTaken(b, j);
    DoneStays(b[j], u, m);
    NoNewReader(b[j], u, t, m);
  }

  /** A leader that waits for the write lock is not overtaken: until it has unlocked, whoever holds the
      read lock of its mutex held it already when the leader announced itself. */
  lemma {:induction false} WaitingLeaderStopsReaders(b: seq<State>, i: nat, j: nat, t: nat, m: nat)
    requires Run(b) && i <= j < |b| && m < |b[i].phase| && b[i].phase[m].Locking?
    requires m < |b[j].phase| && b[j].phase[m] != Done(m)
    requires t < |b[j].phase| && b[j].phase[t] == Reading(m)
    ensures t < |b[i].phase| && b[i].phase[t] == Reading(m)
    decreases j
  {
    if i < j {
      LockerGoesOn(b, i, j - 1, m);
      ReadersBefore(b, j - 1, t, m);
      WaitingLeaderStopsReaders(b, i, j - 1, t, m);
    }
  }

  lemma ReaderStep(b: seq<State>, i: nat, t: nat, m: nat)
    requires Run(b) && i + 1 < |b| && t < |b[i].phase|
    requires b[i].phase[t] == Reading(m) || b[i].phase[t] == Done(m)
    ensures t < |b[i + 1].phase| && (b[i + 1].phase[t] == Reading(m) || b[i + 1].phase[t] == Done(m))
    ensures b[i].phase[t] == Done(m) ==> b[i + 1].phase[t] == Done(m)
  {
    var u := StepTaken(b, i);
  }

  lemma {:induction false} ReaderStays(b: seq<State>, i: nat, j: nat, t: nat, m: nat)
    requires Run(b) && i <= j < |b| && t < |b[i].phase| && b[i].phase[t] == Reading(m)
    ensures t < |b[j].phase| && (b[j].phase[t] == Reading(m) || b[j].phase[t] == Done(m))
    decreases j
  {
    if i < j {
      ReaderStays(b, i, j - 1, t, m);
      ReaderStep(b, j - 1, t, m);
    }
  }

  /** A follower that slipped in before its leader got the write lock has left when the build
      begins. */
  lemma {:induction false} EarlyReadersLeaveFirst(b: seq<State>, i: nat, j: nat, t: nat, m: nat)
    requires Run(b) && i <= j < |b| && t < |b[i].phase| && b[i].phase[t] == Reading(m)
    requires m !in b[i].builds && m in b[j].builds
    ensures t < |b[j].phase| && b[j].phase[t] == Done(m)
    decreases j
  {
    ReaderStays(b, i, j - 1, t, m);
    if m in b[j - 1].builds {
      EarlyReadersLeaveFirst(b, i, j - 1, t, m);
    } else {
      BuildBeginsWithoutReaders(b, j - 1, m, t);
    }
    ReaderStep(b, j - 1, t, m);
  }

  lemma BuildBeginsWithoutReaders(b: seq<State>, i: nat, m: nat, t: nat)
    requires Run(b) && i + 1 < |b| && m !in b[i].builds && m in b[i + 1].builds
    requires t < |b[i].phase|
    ensures b[i].phase[t] != Reading(m)
  {
    RunKeepsInv(b, i);
    var u := StepTaken(b, i);
    assert u == m && b[i].phase[m] == Locking;
    assert t !in b[i].mutexes[m].readers;
  }

  // ----- progress -----

  predicate AllDone(s: State) {
    forall t :: 0 <= t < |s.phase| ==> s.phase[t].Done?
  }

  /** No deadlock: while some call has not returned, some call can take a step. */
  lemma SomeStepEnabled(s: State, u: nat) returns (t: nat)
    requires Inv(s) && u < |s.phase| && !s.phase[u].Done?
    ensures Enabled(s, t)
    ensures t == u || !s.phase[t].Start?
  {
    t := u;
    if s.phase[u].WantRead? {
      var m := s.phase[u].mut;
      FollowerOf(s, u, m);
      if s.mutexes[m].pending {
        t := SomeStepOfOwner(s, m);
      }
    } else if s.phase[u].Reading? {
      FollowerOf(s, u, s.phase[u].mut);
    } else {
      t := SomeStepOfOwner(s, u);
    }
  }

  /** A call outside the read path goes on, or waits for a reader that can leave. */
  lemma SomeStepOfOwner(s: State, m: nat) returns (t: nat)
    requires Inv(s) && m < |s.phase|
    requires s.phase[m].Start? || Owning(s.phase[m]) || s.phase[m].Unlocking?
    ensures Enabled(s, t)
    ensures t == m || !s.phase[t].Start?
  {
    t := m;
    if s.phase[m].Locking? && s.mutexes[m].readers != {} {
      t :| t in s.mutexes[m].readers;
    }
  }

  function Left(p: Phase): nat {
    match p
    case Start => 6
    case WantLock => 5
    case Locking => 4
    case Building => 3
    case Deleting => 2
    case Unlocking => 1
    case WantRead(_) => 2
    case Reading(_) => 1
    case Done(_) => 0
  }

  function Work(phase: seq<Phase>): nat {
    if phase == [] then 0 else Left(phase[0]) + Work(phase[1..])
  }

  lemma {:induction false} WorkUpdate(phase: seq<Phase>, t: nat, p: Phase)
    requires t < |phase|
    ensures Work(phase[t := p]) == Work(phase) - Left(phase[t]) + Left(p)
  {
    if t > 0 {
      assert phase[t := p][1..] == phase[1..][t - 1 := p];
      WorkUpdate(phase[1..], t - 1, p);
    }
  }

  /** Every step brings the end nearer. */
  lemma StepsDecreaseWork(s: State, t: nat)
    requires Shape(s) && Enabled(s, t)
    ensures Work(Step(s, t).phase) < Work(s.phase)
  {
    WorkUpdate(s.phase, t, Step(s, t).phase[t]);
  }

  lemma {:induction false} InitialWork(phase: seq<Phase>)
    requires forall t :: 0 <= t < |phase| ==> phase[t] == Start
    ensures Work(phase) == 6 * |phase|
  {
    if phase != [] {
      InitialWork(phase[1..]);
    }
  }

  lemma {:induction false} WorkAlongRun(b: seq<State>, i: nat)
    requires Run(b) && i < |b|
    ensures Work(b[i].phase) + i <= 6 * |b[0].refs|
  {
    if i == 0 {
      InitialWork(b[0].phase);
    } else {
      WorkAlongRun(b, i - 1);
      var t := StepTaken(b, i - 1);
      StepsDecreaseWork(b[i - 1], t);
    }
  }

  /** Some call for the reference has begun to build. */
  ghost predicate BuildBegun(s: State, ref: string)
    requires Shape(s)
  {
    exists m :: m in s.builds && m < |s.refs| && s.refs[m] == ref
  }

  lemma StoppedExactly(s: State)
    requires Inv(s)
    ensures AllDone(s) <==> forall t: nat :: !Enabled(s, t)
  {
    if !AllDone(s) {
      var u :| 0 <= u < |s.phase| && !s.phase[u].Done?;
      var t := SomeStepEnabled(s, u);
    }
  }

  lemma AllDoneMeans(s: State)
    requires Inv(s) && AllDone(s)
    ensures s.buildMutex == map[]
    ensures forall t :: 0 <= t < |s.refs| ==> BuildBegun(s, s.refs[t])
  {
    forall t | 0 <= t < |s.refs|
      ensures BuildBegun(s, s.refs[t])
    {
      var m := s.phase[t].mut;
      FollowerOf(s, t, m);
      assert s.phase[m] == Done(m);
    }
  }

  /** With n calls no run takes more than 6n steps; a run stops exactly when every call has
      returned, and then the map is empty and every requested reference has had a build, each
      build begun by a different call. */
  lemma RunsEnd(b: seq<State>, last: State)
    requires Run(b) && last == b[|b| - 1]
    ensures |b| - 1 <= 6 * |last.refs|
    ensures AllDone(last) <==> forall t: nat :: !Enabled(last, t)
    ensures AllDone(last) ==> last.buildMutex == map[]
    ensures AllDone(last) ==> forall t :: 0 <= t < |last.refs| ==> BuildBegun(last, last.refs[t])
    ensures BuildsDistinct(last)
  {
    WorkAlongRun(b, |b| - 1);
    RunKeepsInv(b, |b| - 1);
    StoppedExactly(last);
    if AllDone(last) {
      AllDoneMeans(last);
    }
  }

  // ----- the gap -----

  function Free(readers: set<nat>): RWMutex {
    RWMutex(readers, false, false)
  }

  /** Two calls for one reference: the first wins, and the second is through before the first has
      locked. */
  function EarlyPhase(k: nat): seq<Phase> {
    if k == 0 then [Start, Start]
    else if k == 1 then [WantLock, Start]
    else if k == 2 then [WantLock, WantRead(0)]
    else if k == 3 then [WantLock, Reading(0)]
    else [WantLock, Done(0)]
  }

  function EarlyState(name: string, k: nat): State {
    State([name, name], EarlyPhase(k), [Free(if k == 3 then {1} else {}), Free({})],
          if k == 0 then map[] else map[name := 0], [])
  }

  function EarlyCaller(k: nat): nat {
    if k == 0 then 0 else 1
  }

  lemma EarlyBegins(name: string)
    ensures Init(EarlyState(name, 0))
  {
  }

  lemma EarlyStep(name: string, k: nat)
    requires k < 4
    ensures var s := EarlyState(name, k);
            Shape(s) && Enabled(s, EarlyCaller(k)) && EarlyState(name, k + 1) == Step(s, EarlyCaller(k))
  {
    var s, t := EarlyState(name, k), EarlyCaller(k);
    assert Step(s, t).phase == EarlyPhase(k + 1);
    assert Step(s, t).mutexes[0].readers == EarlyState(name, k + 1).mutexes[0].readers;
    assert Step(s, t).mutexes == EarlyState(name, k + 1).mutexes;
  }

  /** A follower can return without any build having begun: it takes the read lock in the gap
      between its leader's `LoadOrStore` and `Lock`. */
  lemma FollowerInTheGap(name: string) returns (b: seq<State>)
    ensures Run(b) && b[0].refs == [name, name]
    ensures b[|b| - 1].phase == [WantLock, Done(0)] && b[|b| - 1].builds == []
  {
    b := seq(5, k requires 0 <= k < 5 => EarlyState(name, k));
    EarlyBegins(name);
    forall k | 0 <= k < 4
      ensures StepAt(b, k)
    {
      EarlyStep(name, k);
    }
  }
}
