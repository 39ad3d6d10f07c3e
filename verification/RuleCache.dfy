/** The cached rule list of pkg/handler/handler.go: invalidated by the watcher, recomputed on demand,
    from a store that changes outside the lock. */
module RuleCache {
  import opened Prelude
  import opened Text
  import opened PatternSyntax
  import opened Rules

  /** The objects in the informer's store; their order in a listing is arbitrary. */
  type Objects = multiset<ImageSpec>

  /** The rules that belong to a store: the static ones and those of the objects that parse,
      sorted, more specific patterns first, when all patterns alternate. */
  ghost predicate UpToDate(rules: seq<Rule>, fixed: seq<Rule>, objects: Objects) {
    && AllValid(rules)
    && exists list :: multiset(list) == objects && Combined(rules, fixed, list)
  }

  ghost predicate Combined(rules: seq<Rule>, fixed: seq<Rule>, list: seq<ImageSpec>)
    requires AllValid(rules)
  {
    && multiset(rules) == multiset(fixed) + multiset(RulesOf(list))
    && (AllAlternating(fixed + RulesOf(list)) ==> Sorted(rules) && SpecificFirst(rules))
  }

  lemma RulesOfSnoc(a: seq<ImageSpec>, x: ImageSpec)
    ensures RulesOf(a + [x]) == RulesOf(a) + RuleOf(x)
  {
    assert (a + [x])[..|a|] == a;
  }

  lemma {:induction false} RulesOfAppend(a: seq<ImageSpec>, b: seq<ImageSpec>)
    ensures RulesOf(a + b) == RulesOf(a) + RulesOf(b)
  {
    if b == [] {
      assert a + b == a && RulesOf(a) + [] == RulesOf(a);
    } else {
      var b', x := b[..|b| - 1], b[|b| - 1];
      assert b == b' + [x] && a + b == (a + b') + [x];
      RulesOfAppend(a, b');
      RulesOfSnoc(b', x);
      RulesOfSnoc(a + b', x);
      Assoc(RulesOf(a), RulesOf(b'), RuleOf(x));
    }
  }

  /** The listing order decides nothing but the order of the rules. */
  lemma {:induction false} RulesOfPermutation(a: seq<ImageSpec>, b: seq<ImageSpec>)
    requires multiset(a) == multiset(b)
    ensures multiset(RulesOf(a)) == multiset(RulesOf(b))
    decreases |a|
  {
    if a == [] {
      assert |multiset(b)| == 0;
    } else {
      var k := |a| - 1;
      var x, a' := a[k], a[..k];
      assert a == a' + [x];
      assert x in multiset(b);
      var j :| 0 <= j < |b| && b[j] == x;
      var b' := TakeOut(b, j);
      assert multiset(a) == multiset(a') + multiset{x};
      assert multiset(a') == multiset(a) - multiset{x} == multiset(b');
      RulesOfPermutation(a', b');
      RulesOfSnoc(a', x);
    }
  }

  lemma MultisetWithout<T>(b: seq<T>, j: nat)
    requires j < |b|
    ensures multiset(b[..j] + b[j + 1..]) == multiset(b) - multiset{b[j]}
    ensures multiset(b) == multiset(b[..j] + b[j + 1..]) + multiset{b[j]}
  {
    assert b == b[..j] + [b[j]] + b[j + 1..];
  }

  lemma TakeOut(b: seq<ImageSpec>, j: nat) returns (rest: seq<ImageSpec>)
    requires j < |b|
    ensures multiset(rest) == multiset(b) - multiset{b[j]}
    ensures multiset(RulesOf(b)) == multiset(RulesOf(rest)) + multiset(RuleOf(b[j]))
  {
    rest := b[..j] + b[j + 1..];
    MultisetWithout(b, j);
    assert b == b[..j] + [b[j]] + b[j + 1..];
    RulesAround(b[..j], b[j], b[j + 1..]);
  }

  lemma RulesAround(front: seq<ImageSpec>, x: ImageSpec, back: seq<ImageSpec>)
    ensures multiset(RulesOf(front + [x] + back)) == multiset(RulesOf(front + back)) + multiset(RuleOf(x))
  {
    RulesOfAppend(front, back);
    RulesOfAppend(front + [x], back);
    RulesOfSnoc(front, x);
  }

  /** Being up to date fixes the rules up to their order. */
  lemma UpToDateIsUnique(one: seq<Rule>, two: seq<Rule>, fixed: seq<Rule>, objects: Objects)
    requires UpToDate(one, fixed, objects) && UpToDate(two, fixed, objects)
    ensures multiset(one) == multiset(two)
  {
    var a :| multiset(a) == objects && Combined(one, fixed, a);
    var b :| multiset(b) == objects && Combined(two, fixed, b);
    RulesOfPermutation(a, b);
  }

  lemma OneMoreRule(fixed: seq<Rule>, list: seq<ImageSpec>, i: nat)
    requires i < |list|
    ensures fixed + RulesOf(list[..i + 1]) == fixed + RulesOf(list[..i]) + RuleOf(list[i])
  {
    assert list[..i + 1][..i] == list[..i];
    Assoc(fixed, RulesOf(list[..i]), RuleOf(list[i]));
  }

  lemma SortedIsCombined(rules: seq<Rule>, unsorted: seq<Rule>, fixed: seq<Rule>, list: seq<ImageSpec>)
    requires AllValid(rules) && unsorted == fixed + RulesOf(list) && multiset(rules) == multiset(unsorted)
    requires AllAlternating(unsorted) ==> Sorted(rules) && SpecificFirst(rules)
    ensures UpToDate(rules, fixed, multiset(list))
  {
    assert Combined(rules, fixed, list);
  }

  // ----- the fields and methods of the handler -----

  /** `cache.Store.List`. */
  method List(objects: Objects) returns (list: seq<ImageSpec>)
    ensures multiset(list) == objects
  {
    list := [];
    var left := objects;
    while left != multiset{}
      invariant multiset(list) + left == objects
      decreases |left|
    {
      var x :| x in left;
      left := left - multiset{x};
      list := list + [x];
    }
  }

  class RuleHandler {
    const imageRules: seq<Rule>
    var imageCR: Option<seq<Rule>>
    var imageStore: Option<Objects>

    constructor (rules: seq<Rule>)
      requires AllValid(rules)
      ensures imageRules == rules && imageCR == None && imageStore == None
    {
      imageRules := rules;
      imageCR := None;
      imageStore := None;
    }

    method ResetImageCR()
      modifies this`imageCR
      ensures imageCR == None
    {
      imageCR := None;
    }

    /** `getImageRules`. */
    method GetImageRules() returns (rules: seq<Rule>)
      requires AllValid(imageRules)
      modifies this`imageCR
      ensures imageStore == None ==> rules == imageRules && imageCR == old(imageCR)
      ensures imageStore.Some? ==> imageCR == Some(rules)
      ensures imageStore.Some? && old(imageCR).Some? ==> imageCR == old(imageCR)
      ensures imageStore.Some? && old(imageCR) == None ==> UpToDate(rules, imageRules, imageStore.value)
    {
      if imageStore == None {
        return imageRules;
      }
      if imageCR == None {
        var list := List(imageStore.value);
        var cr := imageRules;
        for i := 0 to |list|
          invariant cr == imageRules + RulesOf(list[..i])
          invariant AllValid(cr)
        {
          OneMoreRule(imageRules, list, i);
          var parsed := ParsePattern(list[i].pattern);
          if parsed.Err? {
            continue;
          }
          NewRuleIsValid(list[i]);
          cr := cr + [Rule(parsed.value, list[i].baseImage, list[i].mutates, list[i].platforms)];
        }
        assert list[..|list|] == list;
        ghost var unsorted := cr;
        cr := SortRules(cr);
        SortedIsCombined(cr, unsorted, imageRules, list);
        imageCR := Some(cr);
      }
      return imageCR.value;
    }
  }

  // ----- interleaving with the watcher -----

  /** Rules computed from the store as it was after `version` updates. */
  datatype Computed = Computed(rules: seq<Rule>, version: nat)

  /** What the holder of `crMut` is doing; resets wait until nobody is. */
  datatype Holder = Nobody | Entered | Computing(c: Computed) | Returning(c: Computed)

  datatype State = State(
    fixed: seq<Rule>,
    versions: seq<Objects>,      // the store after 0, 1, 2, ... updates
    pending: nat,                // updates whose reset has not run yet
    imageCR: Option<Computed>,
    holder: Holder)

  function Now(s: State): Objects
    requires s.versions != []
  {
    s.versions[|s.versions| - 1]
  }

  datatype Step =
    | Update(objects: Objects)   // the watcher changes the store; a reset will follow
    | Reset
    | Enter
    | Look(rules: seq<Rule>)     // a cached list, or a listing turned into sorted rules
    | Assign
    | Leave

  ghost predicate Enabled(s: State, step: Step)
    requires s.versions != []
  {
    match step
    case Update(_) => true
    case Reset => s.pending > 0 && s.holder.Nobody?
    case Enter => s.holder.Nobody?
    case Look(rules) => s.holder.Entered? && (s.imageCR == None ==> UpToDate(rules, s.fixed, Now(s)))
    case Assign => s.holder.Computing?
    case Leave => s.holder.Returning?
  }

  ghost function Do(s: State, step: Step): State
    requires s.versions != [] && Enabled(s, step)
  {
    match step
    case Update(objects) => s.(versions := s.versions + [objects], pending := s.pending + 1)
    case Reset => s.(imageCR := None, pending := s.pending - 1)
    case Enter => s.(holder := Entered)
    case Look(rules) =>
      s.(holder := match s.imageCR
                   case Some(c) => Returning(c)
                   case None => Computing(Computed(rules, |s.versions| - 1)))
    case Assign => s.(imageCR := Some(s.holder.c), holder := Returning(s.holder.c))
    case Leave => s.(holder := Nobody)
  }

  ghost predicate Init(s: State) {
    |s.versions| == 1 && s.pending == 0 && s.imageCR == None && s.holder == Nobody
  }

  ghost predicate Run(r: seq<State>) {
    && r != [] && Init(r[0])
    && (forall i :: 0 <= i < |r| ==> r[i].versions != [])
    && (forall i :: 0 <= i < |r| - 1 ==> StepAt(r, i))
  }

  ghost predicate StepAt(r: seq<State>, i: nat)
    requires i + 1 < |r| && r[i].versions != []
  {
    exists step :: Enabled(r[i], step) && r[i + 1] == Do(r[i], step)
  }

  /** The rules are those of some version, and as many resets are pending as updates came since. */
  ghost predicate LagsAtMostPending(s: State, c: Computed) {
    && c.version < |s.versions|
    && UpToDate(c.rules, s.fixed, s.versions[c.version])
    && |s.versions| - 1 - c.version <= s.pending
  }

  ghost predicate Inv(s: State) {
    && s.versions != []
    && (s.imageCR.Some? ==> LagsAtMostPending(s, s.imageCR.value))
    && (s.holder.Computing? || s.holder.Returning? ==> LagsAtMostPending(s, s.holder.c))
  }

  lemma LagAfterUpdate(s: State, objects: Objects, c: Computed)
    requires LagsAtMostPending(s, c)
    ensures LagsAtMostPending(s.(versions := s.versions + [objects], pending := s.pending + 1), c)
  {
  }

  lemma SameLag(s: State, t: State, c: Computed)
    requires t.versions == s.versions && t.fixed == s.fixed && t.pending == s.pending
    ensures LagsAtMostPending(s, c) <==> LagsAtMostPending(t, c)
  {
  }

  lemma DoKeepsInv(s: State, step: Step)
    requires Inv(s) && Enabled(s, step)
    ensures Inv(Do(s, step))
  {
    match step
    case Update(objects) =>
      if s.imageCR.Some? {
        LagAfterUpdate(s, objects, s.imageCR.value);
      }
      if s.holder.Computing? || s.holder.Returning? {
        LagAfterUpdate(s, objects, s.holder.c);
      }
    case Reset =>
    case Look(_) =>
      var t := Do(s, step);
      SameLag(s, t, t.holder.c);
      if t.imageCR.Some? {
        SameLag(s, t, t.imageCR.value);
      }
    case Assign =>
      SameLag(s, Do(s, step), s.holder.c);
    case _ =>
      if s.imageCR.Some? {
        SameLag(s, Do(s, step), s.imageCR.value);
      }
  }

  lemma {:induction false} RunKeepsInv(r: seq<State>, i: nat)
    requires Run(r) && i < |r|
    ensures Inv(r[i])
  {
    if i > 0 {
      var j := i - 1;
      RunKeepsInv(r, j);
      assert StepAt(r, j);
      var step :| Enabled(r[j], step) && r[j + 1] == Do(r[j], step);
      DoKeepsInv(r[j], step);
    }
  }

  /** Cached rules, and rules on their way into the cache or out of it, trail the store by at most
      the resets that are still to come. */
  lemma RulesLagAtMostPendingResets(r: seq<State>, i: nat)
    requires Run(r) && i < |r|
    ensures r[i].imageCR.Some? ==> LagsAtMostPending(r[i], r[i].imageCR.value)
    ensures r[i].holder.Computing? || r[i].holder.Returning? ==> LagsAtMostPending(r[i], r[i].holder.c)
  {
    RunKeepsInv(r, i);
  }

  lemma NoLag(s: State, c: Computed)
    requires LagsAtMostPending(s, c)
    ensures UpToDate(c.rules, s.fixed, Now(s)) || s.pending > 0
  {
  }

  /** So stale rules mean that a reset is on its way, and without one the answer is up to date. */
  lemma FreshWithoutPendingReset(r: seq<State>, i: nat)
    requires Run(r) && i < |r|
    ensures r[i].imageCR.Some? && !UpToDate(r[i].imageCR.value.rules, r[i].fixed, Now(r[i])) ==> r[i].pending > 0
    ensures r[i].holder.Returning? && r[i].pending == 0 ==>
              UpToDate(r[i].holder.c.rules, r[i].fixed, Now(r[i]))
  {
    RulesLagAtMostPendingResets(r, i);
    if r[i].imageCR.Some? {
      NoLag(r[i], r[i].imageCR.value);
    }
    if r[i].holder.Returning? {
      NoLag(r[i], r[i].holder.c);
    }
  }
}
