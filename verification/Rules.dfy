/** Rules and actions of pkg/pattern/rule.go and pkg/pattern/action.go, and the sorted rule list. */
module Rules {
  import opened Prelude
  import opened PatternSyntax
  import opened PatternMatch
  import opened PatternGreedy
  import opened PatternOrder
  import opened Substitute

  datatype Platform = Platform(os: string, architecture: string, variant: string)

  datatype File = File(source: string, destination: string, mode: string)

  datatype Ollama = Ollama(model: string, workDir: string, modelName: string)

  datatype Mutate = Mutate(file: Option<File>, ollama: Option<Ollama>)

  datatype ImageSpec = ImageSpec(pattern: string, baseImage: string, mutates: seq<Mutate>, platforms: seq<Platform>)

  datatype Rule = Rule(segments: seq<Segment>, baseImage: string, mutates: seq<Mutate>, platforms: seq<Platform>)

  /** `NewRule`. */
  function NewRule(conf: ImageSpec): Result<Rule, ParseError> {
    var parsed := Parse(WithDefaultTag(conf.pattern));
    if parsed.Err? then Err(parsed.error)
    else Ok(Rule(parsed.value, conf.baseImage, conf.mutates, conf.platforms))
  }

  /** The rule says what the configuration says, its pattern completed by the tag `latest`. */
  predicate RuleFor(rule: Rule, conf: ImageSpec) {
    && Parse(if ':' in conf.pattern then conf.pattern else conf.pattern + ":latest") == Ok(rule.segments)
    && rule.baseImage == conf.baseImage && rule.mutates == conf.mutates && rule.platforms == conf.platforms
  }

  lemma NewRuleMeans(conf: ImageSpec, rule: Rule)
    ensures NewRule(conf) == Ok(rule) <==> RuleFor(rule, conf)
  {
  }

  /** A configured pattern without braces is a rule for one reference, with `latest` for a missing
      tag, and for no other. */
  lemma PlainPatternMatchesItself(conf: ImageSpec, ref: string)
    requires '{' !in conf.pattern && conf.pattern != ""
    ensures NewRule(conf).Ok?
    ensures Match(NewRule(conf).value.segments, ref).Some? <==>
            ref == if ':' in conf.pattern then conf.pattern else conf.pattern + ":latest"
  {
    var text := if ':' in conf.pattern then conf.pattern else conf.pattern + ":latest";
    assert text + "" == text && '{' !in text;
    ParseLiteral(text, "");
    assert [Segment(text, false)] + [] == [Segment(text, false)];
    LiteralAlone(text, ref);
  }

  /** What `NewRule` promises about every rule. */
  ghost predicate ValidRule(r: Rule) {
    r.segments != [] && Canonical(r.segments)
  }

  lemma NewRuleIsValid(conf: ImageSpec)
    requires NewRule(conf).Ok?
    ensures ValidRule(NewRule(conf).value)
  {
    ParsedPatternNotEmpty(conf.pattern);
    ParseThenRender(WithDefaultTag(conf.pattern));
  }

  /** `Rule.LessThan`. */
  predicate LessThan(a: Rule, b: Rule)
    requires a.segments != [] && b.segments != []
  {
    Less(a.segments, b.segments)
  }

  // ----- actions -----

  /** A mutate that carries instructions; the others are dropped. */
  predicate Known(m: Mutate) {
    m.file.Some? || m.ollama.Some?
  }

  /** The placeholders of one mutate filled in; a file wins over an Ollama model. */
  function FillMutate(m: Mutate, params: map<string, string>): (r: Mutate)
    requires Known(m)
  {
    match m.file
    case Some(f) =>
      Mutate(Some(File(Subst(f.source, params), Subst(f.destination, params), f.mode)), None)
    case None =>
      var o := m.ollama.value;
      Mutate(None, Some(Ollama(Subst(o.model, params), Subst(o.workDir, params), Subst(o.modelName, params))))
  }

  predicate FlatMutate(m: Mutate) {
    && (m.file.Some? ==> Flat(m.file.value.source) && Flat(m.file.value.destination))
    && (m.ollama.Some? ==>
          Flat(m.ollama.value.model) && Flat(m.ollama.value.workDir) && Flat(m.ollama.value.modelName))
  }

  predicate FlatMutates(ms: seq<Mutate>) {
    forall i :: 0 <= i < |ms| ==> FlatMutate(ms[i])
  }

  function FillMutates(ms: seq<Mutate>, params: map<string, string>): (r: seq<Mutate>)
    ensures forall i :: 0 <= i < |r| ==> Known(r[i])
  {
    if ms == [] then []
    else
      var k := |ms| - 1;
      var before := FillMutates(ms[..k], params);
      if Known(ms[k]) then before + [FillMutate(ms[k], params)] else before
  }

  /** One mutate filled in, field by field: placeholders in texts, the mode as it is. */
  predicate FilledFrom(out: Mutate, m: Mutate, params: map<string, string>) {
    match m.file
    case Some(f) =>
      && out.ollama == None && out.file.Some?
      && out.file.value.source == Subst(f.source, params)
      && out.file.value.destination == Subst(f.destination, params)
      && out.file.value.mode == f.mode
    case None =>
      && out.file == None && m.ollama.Some? && out.ollama.Some?
      && out.ollama.value.model == Subst(m.ollama.value.model, params)
      && out.ollama.value.workDir == Subst(m.ollama.value.workDir, params)
      && out.ollama.value.modelName == Subst(m.ollama.value.modelName, params)
  }

  ghost predicate AllFilledFrom(out: seq<Mutate>, ms: seq<Mutate>, places: seq<nat>, params: map<string, string>) {
    && Picks(places, |ms|) && |out| == |places|
    && forall i :: 0 <= i < |places| ==> FilledFrom(out[i], ms[places[i]], params)
  }

  function KnownFlags(ms: seq<Mutate>): (flags: seq<bool>)
    ensures |flags| == |ms| && forall i :: 0 <= i < |ms| ==> (flags[i] <==> ms[i].file.Some? || ms[i].ollama.Some?)
  {
    seq(|ms|, i requires 0 <= i < |ms| => Known(ms[i]))
  }

  lemma OneMoreFilled(out: seq<Mutate>, ms: seq<Mutate>, places: seq<nat>, params: map<string, string>)
    requires ms != [] && AllFilledFrom(out, ms[..|ms| - 1], places, params)
    ensures AllFilledFrom(out, ms, places, params)
    ensures Known(ms[|ms| - 1]) ==>
              AllFilledFrom(out + [FillMutate(ms[|ms| - 1], params)], ms, places + [|ms| - 1], params)
  {
    var k := |ms| - 1;
    assert forall i :: 0 <= i < |places| ==> ms[..k][places[i]] == ms[places[i]];
    assert Known(ms[k]) ==> FilledFrom(FillMutate(ms[k], params), ms[k], params);
  }

  lemma {:induction false} FilledInPlace(ms: seq<Mutate>, params: map<string, string>)
    ensures AllFilledFrom(FillMutates(ms, params), ms, PlacesOf(KnownFlags(ms)), params)
  {
    if ms != [] {
      var k := |ms| - 1;
      FilledInPlace(ms[..k], params);
      OneMoreFilled(FillMutates(ms[..k], params), ms, PlacesOf(KnownFlags(ms[..k])), params);
      assert KnownFlags(ms)[..k] == KnownFlags(ms[..k]);
    }
  }

  /** Exactly the mutates with instructions come out, in their order, each filled in. */
  lemma FillMutatesExactly(ms: seq<Mutate>, params: map<string, string>) returns (places: seq<nat>)
    ensures forall k :: 0 <= k < |ms| ==> (k in places <==> ms[k].file.Some? || ms[k].ollama.Some?)
    ensures AllFilledFrom(FillMutates(ms, params), ms, places, params)
  {
    places := PlacesOf(KnownFlags(ms));
    PlacesOfExactly(KnownFlags(ms));
    FilledInPlace(ms, params);
  }

  lemma FillOneMore(ms: seq<Mutate>, i: nat, params: map<string, string>)
    requires i < |ms|
    ensures FillMutates(ms[..i + 1], params) ==
            FillMutates(ms[..i], params) + if Known(ms[i]) then [FillMutate(ms[i], params)] else []
  {
    assert ms[..i + 1][..i] == ms[..i];
    var before := FillMutates(ms[..i], params);
    assert before + [] == before;
  }

  /** `replaceMutateWithParams`.  Nothing without instructions comes out, whatever goes in. */
  method ReplaceMutateWithParams(m: seq<Mutate>, params: map<string, string>) returns (ms: seq<Mutate>)
    ensures forall i :: 0 <= i < |ms| ==> Known(ms[i])
    ensures FlatMutates(m) && Plain(params) ==> ms == FillMutates(m, params)
  {
    ms := [];
    for i := 0 to |m|
      invariant forall j :: 0 <= j < |ms| ==> Known(ms[j])
      invariant FlatMutates(m) && Plain(params) ==> ms == FillMutates(m[..i], params)
    {
      var v := m[i];
      FillOneMore(m, i, params);
      assert FlatMutates(m) ==> FlatMutate(v);
      if v.file.Some? {
        var source := ReplaceWithParams(v.file.value.source, params);
        var destination := ReplaceWithParams(v.file.value.destination, params);
        ms := ms + [Mutate(Some(File(source, destination, v.file.value.mode)), None)];
      } else if v.ollama.Some? {
        var model := ReplaceWithParams(v.ollama.value.model, params);
        var workDir := ReplaceWithParams(v.ollama.value.workDir, params);
        var modelName := ReplaceWithParams(v.ollama.value.modelName, params);
        ms := ms + [Mutate(None, Some(Ollama(model, workDir, modelName)))];
      }
    }
    assert m[..|m|] == m;
  }

  /** The parameters of one build: the captures, with the platform written over them. */
  function PlatformParams(params: map<string, string>, p: Option<Platform>): map<string, string> {
    if p.None? then params["GOOS" := "linux"]["GOARCH" := "amd64"]
    else params["GOOS" := p.value.os]["GOARCH" := p.value.architecture]
  }

  /** Writing a platform forgets the platform written before. */
  lemma PlatformOverwrites(params: map<string, string>, before: Option<Platform>, p: Option<Platform>)
    ensures PlatformParams(PlatformParams(params, before), p) == PlatformParams(params, p)
  {
  }

  /** The parameters of a build: GOOS and GOARCH are the platform's operating system and architecture,
      `linux` and `amd64` when there is no platform, and every other name means what it meant. */
  ghost predicate ForPlatform(params: map<string, string>, captures: map<string, string>, p: Option<Platform>) {
    && params.Keys == captures.Keys + {"GOOS", "GOARCH"}
    && params["GOOS"] == (match p case Some(platform) => platform.os case None => "linux")
    && params["GOARCH"] == (match p case Some(platform) => platform.architecture case None => "amd64")
    && (forall k :: k in captures && k != "GOOS" && k != "GOARCH" ==> params[k] == captures[k])
  }

  lemma PlatformParamsExactly(params: map<string, string>, captures: map<string, string>, p: Option<Platform>)
    ensures params == PlatformParams(captures, p) <==> ForPlatform(params, captures, p)
  {
    assert "GOOS"[2] != "GOARCH"[2];
    var other := PlatformParams(captures, p);
    if ForPlatform(params, captures, p) {
      assert params.Keys == other.Keys;
      assert forall k :: k in params ==> params[k] == other[k];
      assert params == other;
    }
  }

  lemma FilledInBetween(params: map<string, string>, k: string, x: string, t: string)
    requires '{' !in x && '{' !in k && '}' !in k && k in params
    ensures Subst(x + (Placeholder(k) + t), params) == x + (params[k] + Subst(t, params))
    ensures Flat(x + (Placeholder(k) + t)) <==> Flat(t)
  {
    PlainFront(x, Placeholder(k) + t, params);
    SubstPlaceholder(k, t, params);
  }

  lemma NothingToFillIn(params: map<string, string>, z: string)
    requires '{' !in z
    ensures Subst(z, params) == z && Flat(z)
  {
    PlainFront(z, "", params);
    assert z + "" == z;
  }

  /** What the two placeholders become in a text: the platform's operating system and architecture. */
  lemma PlatformIsFilledIn(params: map<string, string>, captures: map<string, string>, p: Option<Platform>,
                           x: string, y: string, z: string)
    requires ForPlatform(params, captures, p) && '{' !in x && '{' !in y && '{' !in z
    ensures var text := x + (Placeholder("GOOS") + (y + (Placeholder("GOARCH") + z)));
            && Flat(text)
            && Subst(text, params) ==
               match p
               case Some(platform) => x + (platform.os + (y + (platform.architecture + z)))
               case None => x + ("linux" + (y + ("amd64" + z)))
  {
    NothingToFillIn(params, z);
    FilledInBetween(params, "GOARCH", y, z);
    FilledInBetween(params, "GOOS", x, y + (Placeholder("GOARCH") + z));
  }

  predicate PlainPlatform(p: Option<Platform>) {
    p.Some? ==> '{' !in p.value.os && '{' !in p.value.architecture
  }

  lemma PlatformParamsArePlain(params: map<string, string>, p: Option<Platform>)
    requires Plain(params) && PlainPlatform(p)
    ensures Plain(PlatformParams(params, p))
  {
  }

  class Action {
    var params: map<string, string>
    const matched: string
    const rule: Rule

    constructor (params: map<string, string>, matched: string, rule: Rule)
      ensures this.params == params && this.matched == matched && this.rule == rule
    {
      this.params := params;
      this.matched := matched;
      this.rule := rule;
    }

    method GetBaseImage() returns (r: string)
      ensures exists order :: Enumerates(order, params) && r == ReplaceEach(rule.baseImage, order, params)
      ensures Flat(rule.baseImage) && Plain(params) ==> r == Subst(rule.baseImage, params)
    {
      r := ReplaceWithParams(rule.baseImage, params);
    }

    /** No platforms configured means that no platform is filtered out. */
    method GetPlatforms() returns (ps: Option<seq<Platform>>)
      ensures ps == if rule.platforms == [] then None else Some(rule.platforms)
    {
      if |rule.platforms| == 0 {
        return None;
      }
      return Some(rule.platforms);
    }

    method GetMutates(p: Option<Platform>) returns (ms: seq<Mutate>)
      modifies this
      ensures params == PlatformParams(old(params), p)
      ensures ForPlatform(params, old(params), p)
      ensures forall i :: 0 <= i < |ms| ==> Known(ms[i])
      ensures FlatMutates(rule.mutates) && Plain(params) ==> ms == FillMutates(rule.mutates, params)
    {
      var mutates := rule.mutates;
      if p == None {
        params := params["GOOS" := "linux"];
        params := params["GOARCH" := "amd64"];
      } else {
        params := params["GOOS" := p.value.os];
        params := params["GOARCH" := p.value.architecture];
      }
      PlatformParamsExactly(params, old(params), p);
      ms := ReplaceMutateWithParams(mutates, params);
    }
  }

  /** `Rule.Match`. */
  method MatchRule(r: Rule, image: string) returns (a: Action?, ok: bool)
    ensures ok <==> Match(r.segments, image).Some?
    ensures ok <==> a != null
    ensures ok ==> fresh(a) && a.matched == image && a.rule == r
    ensures ok ==> |Match(r.segments, image).value| == |r.segments|
                   && a.params == Captures(r.segments, Match(r.segments, image).value)
  {
    var params, matched := MatchSegments(r.segments, image);
    TakeAllIsMatch(r.segments, image);
    if !matched {
      return null, false;
    }
    var action := new Action(params.value, image, r);
    return action, true;
  }

  // ----- the sorted list of rules -----

  ghost predicate AllValid(rules: seq<Rule>) {
    forall i :: 0 <= i < |rules| ==> ValidRule(rules[i])
  }

  ghost predicate AllAlternating(rules: seq<Rule>) {
    forall i :: 0 <= i < |rules| ==> Alternating(rules[i].segments)
  }

  /** No rule has priority over one that stands in front of it. */
  ghost predicate Sorted(rules: seq<Rule>) {
    forall i, j :: 0 <= i < j < |rules| ==> !GoesFirst(rules[j].segments, rules[i].segments)
  }

  /** The rule of a configuration, if it parses. */
  function RuleOf(conf: ImageSpec): (r: seq<Rule>)
    ensures AllValid(r)
  {
    match NewRule(conf)
    case Ok(rule) => NewRuleIsValid(conf); [rule]
    case Err(_) => []
  }

  /** The rules of the configurations that parse, in configuration order. */
  function RulesOf(confs: seq<ImageSpec>): (r: seq<Rule>)
    ensures AllValid(r)
  {
    if confs == [] then []
    else
      var k := |confs| - 1;
      RulesOf(confs[..k]) + RuleOf(confs[k])
  }

  ghost predicate AllRulesFor(rules: seq<Rule>, confs: seq<ImageSpec>, places: seq<nat>) {
    && Picks(places, |confs|) && |rules| == |places|
    && forall i :: 0 <= i < |places| ==> RuleFor(rules[i], confs[places[i]])
  }

  /** The configuration can be parsed. */
  ghost predicate HasRule(conf: ImageSpec) {
    exists rule :: RuleFor(rule, conf)
  }

  function ParseFlags(confs: seq<ImageSpec>): (flags: seq<bool>)
    ensures |flags| == |confs| && forall i :: 0 <= i < |confs| ==> flags[i] == NewRule(confs[i]).Ok?
  {
    seq(|confs|, i requires 0 <= i < |confs| => NewRule(confs[i]).Ok?)
  }

  lemma OneMoreRuleFor(rules: seq<Rule>, confs: seq<ImageSpec>, places: seq<nat>)
    requires confs != [] && AllRulesFor(rules, confs[..|confs| - 1], places)
    ensures AllRulesFor(rules, confs, places)
    ensures NewRule(confs[|confs| - 1]).Ok? ==>
              AllRulesFor(rules + RuleOf(confs[|confs| - 1]), confs, places + [|confs| - 1])
  {
    var k := |confs| - 1;
    assert forall i :: 0 <= i < |places| ==> confs[..k][places[i]] == confs[places[i]];
    RuleOfMeans(confs[k]);
  }

  lemma ParsePlacesSnoc(confs: seq<ImageSpec>)
    requires confs != []
    ensures var k := |confs| - 1;
            PlacesOf(ParseFlags(confs)) == PlacesOf(ParseFlags(confs[..k])) + if NewRule(confs[k]).Ok? then [k] else []
  {
    assert ParseFlags(confs)[..|confs| - 1] == ParseFlags(confs[..|confs| - 1]);
  }

  lemma {:induction false} RulesInPlace(confs: seq<ImageSpec>)
    ensures AllRulesFor(RulesOf(confs), confs, PlacesOf(ParseFlags(confs)))
  {
    if confs != [] {
      var k := |confs| - 1;
      RulesInPlace(confs[..k]);
      var rules, places := RulesOf(confs[..k]), PlacesOf(ParseFlags(confs[..k]));
      OneMoreRuleFor(rules, confs, places);
      ParsePlacesSnoc(confs);
      assert rules + [] == rules && places + [] == places;
    }
  }

  /** Exactly the configurations that parse become rules, in their order, each with everything that
      its configuration says. */
  lemma RulesOfExactly(confs: seq<ImageSpec>) returns (places: seq<nat>)
    ensures forall k :: 0 <= k < |confs| ==> (k in places <==> HasRule(confs[k]))
    ensures AllRulesFor(RulesOf(confs), confs, places)
  {
    places := PlacesOf(ParseFlags(confs));
    PlacesOfExactly(ParseFlags(confs));
    forall k | 0 <= k < |confs|
      ensures NewRule(confs[k]).Ok? <==> HasRule(confs[k])
    {
      RuleOfMeans(confs[k]);
    }
    RulesInPlace(confs);
  }

  lemma RuleOfMeans(conf: ImageSpec)
    ensures NewRule(conf).Ok? <==> HasRule(conf)
    ensures |RuleOf(conf)| == (if NewRule(conf).Ok? then 1 else 0)
    ensures NewRule(conf).Ok? ==> RuleFor(RuleOf(conf)[0], conf)
  {
    if NewRule(conf).Ok? {
      NewRuleMeans(conf, NewRule(conf).value);
    }
  }

  lemma OneRulePerConf(a: Rule, b: Rule, conf: ImageSpec)
    requires RuleFor(a, conf) && RuleFor(b, conf)
    ensures a == b
  {
  }

  ghost predicate Configured(confs: seq<ImageSpec>, rule: Rule) {
    exists k :: 0 <= k < |confs| && RuleFor(rule, confs[k])
  }

  lemma ConfiguredExactly(confs: seq<ImageSpec>, rule: Rule)
    ensures rule in RulesOf(confs) <==> Configured(confs, rule)
  {
    var places := RulesOfExactly(confs);
    if rule in RulesOf(confs) {
      var i: nat :| i < |places| && RulesOf(confs)[i] == rule;
      assert RuleFor(rule, confs[places[i]]);
    }
    if Configured(confs, rule) {
      var k :| 0 <= k < |confs| && RuleFor(rule, confs[k]);
      assert HasRule(confs[k]);
      var i: nat :| i < |places| && places[i] == k;
      OneRulePerConf(rule, RulesOf(confs)[i], confs[k]);
    }
  }

  // ----- more specific rules come first -----

  /** The pattern `p` comes from `q` by filling one or more wildcards with text. */
  ghost predicate Fills(p: seq<Segment>, q: seq<Segment>) {
    exists picks :: Filling(q, picks) && (exists i :: 0 <= i < |picks| && picks[i] != "") && p == Merge(Fill(q, picks))
  }

  /** A rule stands in front of every rule whose pattern it fills. */
  ghost predicate SpecificFirst(rules: seq<Rule>) {
    forall i, j :: 0 <= i < |rules| && 0 <= j < |rules| && Fills(rules[i].segments, rules[j].segments) ==> i < j
  }

  lemma FillsIsLess(p: seq<Segment>, q: seq<Segment>)
    requires q != [] && Canonical(q) && Alternating(q) && Fills(p, q)
    ensures GoesFirst(p, q)
  {
    var picks :| Filling(q, picks) && (exists i :: 0 <= i < |picks| && picks[i] != "") && p == Merge(Fill(q, picks));
    FilledTextParses(q, picks);
    MoreSpecificWins(q, picks);
    LessExactly(p, q);
  }

  lemma SortedIsSpecificFirst(rules: seq<Rule>)
    requires AllValid(rules) && AllAlternating(rules) && Sorted(rules)
    ensures SpecificFirst(rules)
  {
    forall i, j | 0 <= i < |rules| && 0 <= j < |rules| && Fills(rules[i].segments, rules[j].segments)
      ensures i < j
    {
      FillsIsLess(rules[i].segments, rules[j].segments);
      LessExactly(rules[i].segments, rules[j].segments);
      LessIsAsymmetric(rules[i].segments, rules[i].segments);
    }
  }

  /** One rule moved left past every rule that it strictly precedes. */
  method InsertRule(rules: seq<Rule>, r: Rule) returns (out: seq<Rule>)
    requires AllValid(rules) && ValidRule(r)
    ensures multiset(out) == multiset(rules) + multiset{r}
    ensures AllValid(out)
    ensures AllAlternating(rules) && Alternating(r.segments) && Sorted(rules) ==> AllAlternating(out) && Sorted(out)
  {
    var k := |rules|;
    while k > 0 && LessThan(r, rules[k - 1])
      invariant 0 <= k <= |rules|
      invariant forall i :: k <= i < |rules| ==> LessThan(r, rules[i])
    {
      k := k - 1;
    }
    out := Inserted(rules, r, k);
    InsertedIsPermutation(rules, r, k);
    if AllAlternating(rules) && Alternating(r.segments) && Sorted(rules) {
      InsertedIsSorted(rules, r, k);
    }
  }

  lemma InsertedIsPermutation(rules: seq<Rule>, r: Rule, k: nat)
    requires AllValid(rules) && ValidRule(r) && k <= |rules|
    ensures var out := Inserted(rules, r, k);
            AllValid(out) && multiset(out) == multiset(rules) + multiset{r}
  {
    assert rules == rules[..k] + rules[k..];
  }

  /** The rule may stand at place `k` of the sorted list. */
  ghost predicate FitsAt(rules: seq<Rule>, r: Rule, k: nat) {
    && AllValid(rules) && ValidRule(r) && k <= |rules|
    && AllAlternating(rules) && Alternating(r.segments) && Sorted(rules)
    && (forall i :: k <= i < |rules| ==> LessThan(r, rules[i]))
    && (k > 0 ==> !LessThan(r, rules[k - 1]))
  }

  lemma NotBeforeLeft(rules: seq<Rule>, r: Rule, k: nat, i: nat)
    requires FitsAt(rules, r, k) && i < k
    ensures !LessThan(r, rules[i])
  {
    if i < k - 1 {
      LessExactly(rules[k - 1].segments, rules[i].segments);
      LessIsStrictWeakOrder(rules[i].segments, rules[k - 1].segments, r.segments);
    }
  }

  function Inserted(rules: seq<Rule>, r: Rule, k: nat): seq<Rule>
    requires k <= |rules|
  {
    rules[..k] + [r] + rules[k..]
  }

  lemma InsertedPair(rules: seq<Rule>, r: Rule, k: nat, i: nat, j: nat)
    requires FitsAt(rules, r, k) && i < j <= |rules| && AllValid(Inserted(rules, r, k))
    ensures !GoesFirst(Inserted(rules, r, k)[j].segments, Inserted(rules, r, k)[i].segments)
  {
    LessExactly(Inserted(rules, r, k)[j].segments, Inserted(rules, r, k)[i].segments);
    if i == k {
      LessIsAsymmetric(r.segments, rules[j - 1].segments);
    } else if j == k {
      NotBeforeLeft(rules, r, k, i);
    }
  }

  lemma InsertedIsSorted(rules: seq<Rule>, r: Rule, k: nat)
    requires FitsAt(rules, r, k)
    ensures var out := Inserted(rules, r, k);
            AllValid(out) && AllAlternating(out) && Sorted(out)
  {
    var out := Inserted(rules, r, k);
    InsertedIsPermutation(rules, r, k);
    forall i, j | 0 <= i < j < |out|
      ensures !GoesFirst(out[j].segments, out[i].segments)
    {
      InsertedPair(rules, r, k, i, j);
    }
  }

  /** `sort.Slice` with `LessThan`: always a permutation, and sorted when the patterns alternate
      (only then is the comparison the strict weak order that sorting asks for). */
  method SortRules(rules: seq<Rule>) returns (out: seq<Rule>)
    requires AllValid(rules)
    ensures multiset(out) == multiset(rules)
    ensures AllValid(out)
    ensures AllAlternating(rules) ==> AllAlternating(out) && Sorted(out) && SpecificFirst(out)
  {
    out := [];
    for i := 0 to |rules|
      invariant multiset(out) == multiset(rules[..i])
      invariant AllValid(out)
      invariant AllAlternating(rules) ==> AllAlternating(out) && Sorted(out)
    {
      assert rules[..i + 1] == rules[..i] + [rules[i]];
      out := InsertRule(out, rules[i]);
    }
    assert rules[..|rules|] == rules;
    if AllAlternating(rules) {
      SortedIsSpecificFirst(out);
    }
  }

  /** `WithImageConfig`: configurations that do not parse are skipped, the rest is sorted. */
  method WithImageConfig(confs: seq<ImageSpec>) returns (rules: seq<Rule>)
    ensures multiset(rules) == multiset(RulesOf(confs))
    ensures AllValid(rules)
    ensures AllAlternating(RulesOf(confs)) ==> AllAlternating(rules) && Sorted(rules) && SpecificFirst(rules)
  {
    rules := [];
    for i := 0 to |confs|
      invariant rules == RulesOf(confs[..i])
    {
      assert confs[..i + 1][..i] == confs[..i];
      var parsed := ParsePattern(confs[i].pattern);
      if parsed.Err? {
        continue;
      }
      rules := rules + [Rule(parsed.value, confs[i].baseImage, confs[i].mutates, confs[i].platforms)];
    }
    assert confs[..|confs|] == confs;
    rules := SortRules(rules);
  }
}
