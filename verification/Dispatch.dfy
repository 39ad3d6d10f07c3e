/** From an HTTP path to a rule: `ServeHTTP` and `manifests` of pkg/handler/handler.go. */
module Dispatch {
  import opened Prelude
  import opened Text
  import opened PatternSyntax
  import opened PatternMatch
  import opened PatternGreedy
  import opened PatternOrder
  import opened Rules

  // ----- strings.Split and strings.Join with a one-character separator -----

  function Split(s: string, c: char): (parts: seq<string>)
    ensures parts != []
    ensures forall i :: 0 <= i < |parts| ==> c !in parts[i]
    decreases |s|
  {
    var n := IndexOf(s, c);
    if n == |s| then [s] else [s[..n]] + Split(s[n + 1..], c)
  }

  function Join(parts: seq<string>, c: char): string {
    if parts == [] then ""
    else if |parts| == 1 then parts[0]
    else parts[0] + [c] + Join(parts[1..], c)
  }

  lemma JoinCons(part: string, parts: seq<string>, c: char)
    requires parts != []
    ensures Join([part] + parts, c) == part + [c] + Join(parts, c)
  {
    assert ([part] + parts)[1..] == parts;
  }

  lemma CutAt(s: string, n: nat)
    requires n < |s|
    ensures s[..n] + [s[n]] + s[n + 1..] == s
  {
  }

  lemma {:induction false} SplitThenJoin(s: string, c: char)
    ensures Join(Split(s, c), c) == s
    decreases |s|
  {
    var n := IndexOf(s, c);
    if n < |s| {
      var rest := s[n + 1..];
      SplitThenJoin(rest, c);
      JoinCons(s[..n], Split(rest, c), c);
      CutAt(s, n);
    }
  }

  /** A separator splits the splitting. */
  lemma {:induction false} SplitAt(a: string, b: string, c: char)
    ensures Split(a + [c] + b, c) == Split(a, c) + Split(b, c)
    decreases |a|
  {
    var s := a + [c] + b;
    var n := IndexOf(a, c);
    IndexOfUnique(s, c, n) by {
      assert s[..n] == a[..n];
    }
    if n == |a| {
      assert s[n + 1..] == b && s[..n] == a;
    } else {
      assert s[n + 1..] == a[n + 1..] + [c] + b && s[..n] == a[..n];
      SplitAt(a[n + 1..], b, c);
      Assoc([a[..n]], Split(a[n + 1..], c), Split(b, c));
    }
  }

  lemma SplitPlain(a: string, c: char)
    requires c !in a
    ensures Split(a, c) == [a]
  {
    assert a[..|a|] == a;
    IndexOfUnique(a, c, |a|);
  }

  /** The last separator is where a part without one begins. */
  lemma LastSlash(m: string, h: string, n: string, k: string)
    requires '/' !in h && '/' !in k && m + "/" + h == n + "/" + k
    ensures m == n && h == k
  {
    SplitAt(m, h, '/');
    SplitAt(n, k, '/');
    SplitPlain(h, '/');
    SplitPlain(k, '/');
    var p, q := Split(m, '/'), Split(n, '/');
    assert (p + [h])[|p|] == (q + [k])[|q|];
    assert (p + [h])[..|p|] == p && (q + [k])[..|q|] == q;
    SplitThenJoin(m, '/');
    SplitThenJoin(n, '/');
  }

  lemma {:induction false} JoinAppend(a: seq<string>, b: seq<string>, c: char)
    requires a != [] && b != []
    ensures Join(a + b, c) == Join(a, c) + [c] + Join(b, c)
  {
    if |a| == 1 {
      assert (a + b)[1..] == b;
    } else {
      assert (a + b)[1..] == a[1..] + b;
      JoinAppend(a[1..], b, c);
      Assoc(a[0] + [c], Join(a[1..], c) + [c], Join(b, c));
      Assoc(a[0] + [c], Join(a[1..], c), [c]);
    }
  }

  // ----- routing -----

  datatype Route = NotFound | Unsupported | Root | Blobs(image: string, hash: string) | Manifests(image: string, tag: string)

  /** `ServeHTTP`: which handler a request reaches, and with which name and reference. */
  function RouteOf(verb: string, path: string): Route {
    if !HasPrefix(path, "/v2/") then NotFound
    else if verb != "GET" && verb != "HEAD" then Unsupported
    else if path == "/v2/" then Root
    else
      var parts := Split(path, '/');
      if |parts| < 4 then NotFound
      else
        var n := |parts|;
        var image := Join(parts[2..n - 2], '/');
        if parts[n - 2] == "blobs" then Blobs(image, parts[n - 1])
        else if parts[n - 2] == "manifests" then Manifests(image, parts[n - 1])
        else NotFound
  }

  function Path(image: string, kind: string, last: string): string {
    "/v2/" + image + "/" + kind + "/" + last
  }

  lemma PathSplits(image: string, kind: string, last: string)
    requires '/' !in kind && '/' !in last
    ensures Split(Path(image, kind, last), '/') == ["", "v2"] + Split(image, '/') + [kind, last]
  {
    var tail := image + "/" + (kind + "/" + last);
    SplitPlain("", '/');
    SplitPlain("v2", '/');
    SplitPlain(kind, '/');
    SplitPlain(last, '/');
    SplitAt(kind, last, '/');
    SplitAt(image, kind + "/" + last, '/');
    SplitAt("v2", tail, '/');
    SplitAt("", "v2" + "/" + tail, '/');
    PathShape(image, kind, last);
    SeqShape(Split(image, '/'), kind, last);
  }

  lemma PathShape(image: string, kind: string, last: string)
    ensures Path(image, kind, last) == "" + "/" + ("v2" + "/" + (image + "/" + (kind + "/" + last)))
  {
    Assoc(image, "/", kind + "/" + last);
    Assoc(image + "/", kind + "/", last);
    Assoc(image + "/", kind, "/");
    assert "/v2/" + image + "/" + kind + "/" + last == "/v2/" + (image + "/" + kind + "/" + last);
    assert "" + "/" + ("v2" + "/" + (image + "/" + (kind + "/" + last))) == "/v2/" + (image + "/" + (kind + "/" + last));
  }

  lemma SeqShape(mid: seq<string>, kind: string, last: string)
    ensures [""] + (["v2"] + (mid + ([kind] + [last]))) == ["", "v2"] + mid + [kind, last]
  {
  }

  /** The parts that the router looks at are the ones that the client put into the path. */
  lemma PathParts(image: string, kind: string, last: string)
    requires '/' !in kind && '/' !in last
    ensures HasPrefix(Path(image, kind, last), "/v2/") && Path(image, kind, last) != "/v2/"
    ensures var parts := Split(Path(image, kind, last), '/');
            var n := |parts|;
            n >= 4 && parts[n - 2] == kind && parts[n - 1] == last && Join(parts[2..n - 2], '/') == image
  {
    PathSplits(image, kind, last);
    SplitThenJoin(image, '/');
    LongPath(image, kind, last);
    MiddleParts(Split(image, '/'), kind, last);
  }

  lemma MiddleParts(mid: seq<string>, kind: string, last: string)
    requires mid != []
    ensures var parts := ["", "v2"] + mid + [kind, last];
            parts[|parts| - 2] == kind && parts[|parts| - 1] == last && parts[2..|parts| - 2] == mid
  {
  }

  lemma LongPath(image: string, kind: string, last: string)
    ensures HasPrefix(Path(image, kind, last), "/v2/") && Path(image, kind, last) != "/v2/"
  {
    PathShape(image, kind, last);
  }

  /** A pull of a manifest (section "Pulling manifests" of the OCI Distribution Specification)
      reaches the manifest handler with exactly the image name and the tag that the client put into
      the path, whatever slashes the image name contains. */
  lemma PullRecoversNameAndTag(verb: string, image: string, tag: string)
    requires verb == "GET" || verb == "HEAD"
    requires '/' !in tag
    ensures RouteOf(verb, "/v2/" + image + "/manifests/" + tag) == Manifests(image, tag)
    ensures "/v2/" + image + "/manifests/" + tag == Path(image, "manifests", tag)
  {
    SameText("/v2/" + image, "manifests", "/manifests/", tag);
    PathParts(image, "manifests", tag);
  }

  lemma SameText(start: string, kind: string, middle: string, last: string)
    requires middle == "/" + kind + "/"
    ensures start + middle + last == start + "/" + kind + "/" + last
  {
    Assoc(start, "/" + kind, "/");
    Assoc(start, "/", kind);
  }

  /** A path of a kind, or one of that kind without a name. */
  predicate EndsIn(path: string, image: string, kind: string, last: string) {
    path == Path(image, kind, last) || (image == "" && path == "/v2/" + kind + "/" + last)
  }

  /** And only such a path reaches it: the two forms below, the second with an empty name. */
  lemma OnlyPullsReachManifests(verb: string, path: string, image: string, tag: string)
    requires RouteOf(verb, path) == Manifests(image, tag)
    ensures verb == "GET" || verb == "HEAD"
    ensures '/' !in tag && EndsIn(path, image, "manifests", tag)
  {
    var parts := Split(path, '/');
    ManifestParts(verb, path, image, tag);
    PathFromParts(path, parts, parts[2..|parts| - 2], "manifests", tag);
    assert parts[2..|parts| - 2] == [] ==> image == "";
  }

  lemma ManifestParts(verb: string, path: string, image: string, tag: string)
    requires RouteOf(verb, path) == Manifests(image, tag)
    ensures var parts := Split(path, '/');
            && |parts| >= 4 && parts[..2] == ["", "v2"]
            && parts[|parts| - 2] == "manifests" && parts[|parts| - 1] == tag && '/' !in tag
            && image == Join(parts[2..|parts| - 2], '/')
            && (verb == "GET" || verb == "HEAD")
  {
    PathStartsWithV2(path);
  }

  lemma PathFromParts(path: string, parts: seq<string>, mid: seq<string>, kind: string, last: string)
    requires parts == Split(path, '/') && |parts| >= 4 && parts[..2] == ["", "v2"] && mid == parts[2..|parts| - 2]
    requires parts[|parts| - 2] == kind && parts[|parts| - 1] == last
    ensures path == if mid == [] then "/v2/" + kind + "/" + last else Path(Join(mid, '/'), kind, last)
  {
    SplitThenJoin(path, '/');
    StartMidEnd(parts);
    JoinedPath(mid, kind, last);
  }

  lemma StartMidEnd(parts: seq<string>)
    requires |parts| >= 4 && parts[..2] == ["", "v2"]
    ensures parts == ["", "v2"] + parts[2..|parts| - 2] + [parts[|parts| - 2], parts[|parts| - 1]]
  {
    assert parts == parts[..2] + parts[2..|parts| - 2] + parts[|parts| - 2..];
  }

  lemma JoinedPath(mid: seq<string>, kind: string, last: string)
    ensures Join(["", "v2"] + mid + [kind, last], '/') ==
            if mid == [] then "/v2/" + kind + "/" + last else Path(Join(mid, '/'), kind, last)
  {
    var start, end := ["", "v2"], [kind, last];
    JoinTwo("", "v2", '/');
    JoinTwo(kind, last, '/');
    JoinAppend(start + mid, end, '/');
    if mid == [] {
      assert start + mid == start;
      JoinedShort(kind, last);
    } else {
      JoinAppend(start, mid, '/');
      JoinedShape(Join(mid, '/'), kind, last);
    }
  }

  lemma JoinTwo(a: string, b: string, c: char)
    ensures Join([a, b], c) == a + [c] + b
  {
    assert [a, b][1..] == [b];
  }

  lemma JoinedShort(kind: string, last: string)
    ensures "" + ['/'] + "v2" + ['/'] + (kind + ['/'] + last) == "/v2/" + kind + "/" + last
  {
    assert "" + ['/'] + "v2" + ['/'] == "/v2/";
    Assoc("/v2/", kind + "/", last);
    Assoc("/v2/", kind, "/");
  }

  lemma JoinedShape(image: string, kind: string, last: string)
    ensures "" + ['/'] + "v2" + ['/'] + image + ['/'] + (kind + ['/'] + last) == Path(image, kind, last)
  {
    assert "" + ['/'] + "v2" + ['/'] == "/v2/";
    Assoc("/v2/" + image + "/", kind + "/", last);
    Assoc("/v2/" + image + "/", kind, "/");
  }

  lemma PathStartsWithV2(path: string)
    requires HasPrefix(path, "/v2/")
    ensures |Split(path, '/')| >= 3 && Split(path, '/')[..2] == ["", "v2"]
  {
    var rest := path[4..];
    assert path == "" + ['/'] + ("v2" + ['/'] + rest);
    SplitAt("", "v2" + ['/'] + rest, '/');
    SplitAt("v2", rest, '/');
    SplitPlain("", '/');
    SplitPlain("v2", '/');
    TwoInFront("", "v2", Split(rest, '/'));
  }

  lemma TwoInFront(a: string, b: string, rest: seq<string>)
    requires rest != []
    ensures |[a] + ([b] + rest)| >= 3 && ([a] + ([b] + rest))[..2] == [a, b]
  {
  }

  /** A pull of a blob (section "Pulling blobs" of the OCI Distribution Specification) reaches the blob
      handler with the name and the digest that the client put into the path. */
  lemma PullRecoversNameAndDigest(verb: string, image: string, digest: string)
    requires verb == "GET" || verb == "HEAD"
    requires '/' !in digest
    ensures RouteOf(verb, "/v2/" + image + "/blobs/" + digest) == Blobs(image, digest)
  {
    SameText("/v2/" + image, "blobs", "/blobs/", digest);
    PathParts(image, "blobs", digest);
  }

  /** And only such a path reaches the blob handler. */
  lemma OnlyPullsReachBlobs(verb: string, path: string, image: string, digest: string)
    requires RouteOf(verb, path) == Blobs(image, digest)
    ensures verb == "GET" || verb == "HEAD"
    ensures '/' !in digest && EndsIn(path, image, "blobs", digest)
  {
    var parts := Split(path, '/');
    PathStartsWithV2(path);
    PathFromParts(path, parts, parts[2..|parts| - 2], "blobs", digest);
  }

  /** Which requests are turned away at once, and how. */
  lemma OtherRoutes(verb: string, path: string)
    ensures RouteOf(verb, path) == Unsupported <==> HasPrefix(path, "/v2/") && verb != "GET" && verb != "HEAD"
    ensures RouteOf(verb, path) == Root <==> path == "/v2/" && (verb == "GET" || verb == "HEAD")
    ensures !HasPrefix(path, "/v2/") ==> RouteOf(verb, path) == NotFound
  {
  }

  // ----- choosing the rule -----

  predicate Matches(r: Rule, ref: string) {
    Match(r.segments, ref).Some?
  }

  /** `slices.IndexFunc` over the rules, keeping the action of the rule that matched. */
  method FindRule(rules: seq<Rule>, ref: string) returns (i: int, action: Action?)
    ensures i < 0 <==> forall j :: 0 <= j < |rules| ==> !Matches(rules[j], ref)
    ensures i < 0 <==> action == null
    ensures i >= 0 ==> i < |rules| && Matches(rules[i], ref)
                       && (forall j :: 0 <= j < i ==> !Matches(rules[j], ref))
    ensures action != null ==> fresh(action) && action.rule == rules[i] && action.matched == ref
                               && |Match(rules[i].segments, ref).value| == |rules[i].segments|
                               && action.params == Captures(rules[i].segments, Match(rules[i].segments, ref).value)
  {
    for k := 0 to |rules|
      invariant forall j :: 0 <= j < k ==> !Matches(rules[j], ref)
    {
      var a, ok := MatchRule(rules[k], ref);
      if ok {
        return k, a;
      }
    }
    return -1, null;
  }

  /** In a sorted list the first match has no matching rule strictly before it in the order. */
  lemma FirstMatchIsMinimal(rules: seq<Rule>, ref: string, i: nat)
    requires AllValid(rules) && Sorted(rules)
    requires i < |rules| && forall j :: 0 <= j < i ==> !Matches(rules[j], ref)
    ensures forall j :: 0 <= j < |rules| && Matches(rules[j], ref) ==> !GoesFirst(rules[j].segments, rules[i].segments)
  {
    forall j | 0 <= j < |rules| && Matches(rules[j], ref)
      ensures !GoesFirst(rules[j].segments, rules[i].segments)
    {
      LessExactly(rules[i].segments, rules[i].segments);
      LessIsAsymmetric(rules[i].segments, rules[i].segments);
    }
  }

  datatype Answer = Refused(route: Route) | ByDigest(digest: string) | NoSuchImage | Build(rule: Rule, ref: string)

  /** `ServeHTTP` followed by `manifests`, for a server without a storage registry: the rule that
      a request is built with. */
  method Serve(verb: string, path: string, rules: seq<Rule>) returns (answer: Answer, action: Action?)
    requires AllValid(rules)
    ensures !RouteOf(verb, path).Manifests? ==> answer == Refused(RouteOf(verb, path))
    ensures RouteOf(verb, path).Manifests? && HasPrefix(RouteOf(verb, path).tag, "sha256:") ==>
              answer == ByDigest(RouteOf(verb, path).tag)
    ensures forall image, tag :: RouteOf(verb, path) == Manifests(image, tag) && !HasPrefix(tag, "sha256:") ==>
              Chosen(rules, image + ":" + tag, answer)
    ensures answer.Build? <==> action != null
    ensures action != null ==> fresh(action) && action.rule == answer.rule && action.matched == answer.ref
  {
    action := null;
    var route := RouteOf(verb, path);
    if !route.Manifests? {
      return Refused(route), null;
    }
    if HasPrefix(route.tag, "sha256:") {
      return ByDigest(route.tag), null;
    }
    var ref := route.image + ":" + route.tag;
    var i, a := FindRule(rules, ref);
    if i < 0 {
      return NoSuchImage, null;
    }
    if Sorted(rules) {
      FirstMatchIsMinimal(rules, ref, i);
    }
    return Build(rules[i], ref), a;
  }

  /** Not found exactly when no rule matches; otherwise a matching rule, and in a sorted list one
      that no matching rule strictly precedes. */
  ghost predicate Chosen(rules: seq<Rule>, ref: string, answer: Answer)
    requires AllValid(rules)
  {
    if forall j :: 0 <= j < |rules| ==> !Matches(rules[j], ref) then answer == NoSuchImage
    else
      && answer.Build? && answer.ref == ref
      && answer.rule in rules && Matches(answer.rule, ref)
      && answer.rule.segments != []
      && (Sorted(rules) ==>
            forall j :: 0 <= j < |rules| && Matches(rules[j], ref) ==>
              !GoesFirst(rules[j].segments, answer.rule.segments))
      && (SpecificFirst(rules) ==>
            forall j :: 0 <= j < |rules| && Matches(rules[j], ref) ==> !Fills(rules[j].segments, answer.rule.segments))
  }

  /** The answer for the configured rules: none matches, or one that does.  As long as all patterns
      alternate, no matching rule has priority over it, and none is a filled-in form of it. */
  ghost predicate AnswersFor(confs: seq<ImageSpec>, ref: string, answer: Answer) {
    match answer
    case NoSuchImage => forall rule :: Configured(confs, rule) ==> Match(rule.segments, ref).None?
    case Build(chosen, r) =>
      && r == ref && Configured(confs, chosen) && Match(chosen.segments, ref).Some?
      && ((forall rule :: Configured(confs, rule) ==> Alternating(rule.segments)) ==>
            forall rule :: Configured(confs, rule) && Match(rule.segments, ref).Some? ==>
              !GoesFirst(rule.segments, chosen.segments) && !Fills(rule.segments, chosen.segments))
    case _ => false
  }

  lemma SameRules(confs: seq<ImageSpec>, rules: seq<Rule>, rule: Rule)
    requires multiset(rules) == multiset(RulesOf(confs))
    ensures rule in rules <==> Configured(confs, rule)
  {
    assert rule in rules <==> rule in multiset(rules);
    assert rule in RulesOf(confs) <==> rule in multiset(RulesOf(confs));
    ConfiguredExactly(confs, rule);
  }

  lemma AllAlternate(confs: seq<ImageSpec>)
    requires forall rule :: Configured(confs, rule) ==> Alternating(rule.segments)
    ensures AllAlternating(RulesOf(confs))
  {
    forall i | 0 <= i < |RulesOf(confs)|
      ensures Alternating(RulesOf(confs)[i].segments)
    {
      ConfiguredExactly(confs, RulesOf(confs)[i]);
    }
  }

  lemma NothingAnswers(confs: seq<ImageSpec>, rules: seq<Rule>, ref: string)
    requires multiset(rules) == multiset(RulesOf(confs)) && forall j :: 0 <= j < |rules| ==> !Matches(rules[j], ref)
    ensures AnswersFor(confs, ref, NoSuchImage)
  {
    forall rule | Configured(confs, rule)
      ensures Match(rule.segments, ref).None?
    {
      SameRules(confs, rules, rule);
      assert Matches(rule, ref) <==> Match(rule.segments, ref).Some?;
    }
  }

  lemma ChosenAnswers(confs: seq<ImageSpec>, rules: seq<Rule>, ref: string, answer: Answer)
    requires multiset(rules) == multiset(RulesOf(confs)) && AllValid(rules)
    requires AllAlternating(RulesOf(confs)) ==> Sorted(rules) && SpecificFirst(rules)
    requires Chosen(rules, ref, answer)
    ensures AnswersFor(confs, ref, answer)
  {
    if forall j :: 0 <= j < |rules| ==> !Matches(rules[j], ref) {
      NothingAnswers(confs, rules, ref);
    } else {
      SameRules(confs, rules, answer.rule);
      if forall rule :: Configured(confs, rule) ==> Alternating(rule.segments) {
        AllAlternate(confs);
        forall rule | Configured(confs, rule) && Match(rule.segments, ref).Some?
          ensures !GoesFirst(rule.segments, answer.rule.segments) && !Fills(rule.segments, answer.rule.segments)
        {
          SameRules(confs, rules, rule);
          assert Matches(rule, ref);
        }
      }
    }
  }

  /** A manifest request for any image name and any tag that is not a digest, against the
      configured rules; alternating patterns make the answer a most specific matching rule. */
  method ServeConfigured(confs: seq<ImageSpec>, verb: string, image: string, tag: string)
    returns (rules: seq<Rule>, answer: Answer)
    requires verb == "GET" || verb == "HEAD"
    requires '/' !in tag && !HasPrefix(tag, "sha256:")
    ensures multiset(rules) == multiset(RulesOf(confs)) && AllValid(rules)
    ensures AllAlternating(RulesOf(confs)) ==> Sorted(rules)
    ensures Chosen(rules, image + ":" + tag, answer)
    ensures AnswersFor(confs, image + ":" + tag, answer)
  {
    rules := WithImageConfig(confs);
    PullRecoversNameAndTag(verb, image, tag);
    var action;
    answer, action := Serve(verb, Path(image, "manifests", tag), rules);
    ChosenAnswers(confs, rules, image + ":" + tag, answer);
  }
}
