/** Parse, match and substitute undo each other: from a template and a reference back to the
    reference. */
module RoundTrip {
  import opened Prelude
  import opened Text
  import opened PatternSyntax
  import opened PatternMatch
  import opened PatternGreedy
  import opened Substitute
  import opened Rules

  /** No wildcard name has a second placeholder inside its braces. */
  ghost predicate PlainNames(segs: seq<Segment>) {
    forall i :: 0 <= i < |segs| && segs[i].wildcard ==> Unnested(segs[i].s)
  }

  ghost predicate DistinctNames(segs: seq<Segment>) {
    forall i, j :: 0 <= i < j < |segs| && segs[i].wildcard && segs[j].wildcard ==> segs[i].s != segs[j].s
  }

  /** Wildcards of the same name captured the same text. */
  ghost predicate Agree(segs: seq<Segment>, pieces: seq<string>)
    requires |segs| == |pieces|
  {
    forall i, j :: 0 <= i < j < |segs| && segs[i].wildcard && segs[j].wildcard && segs[i].s == segs[j].s ==>
                     pieces[i] == pieces[j]
  }

  /** What each segment turns into under a parameter map. */
  function Resolve(segs: seq<Segment>, params: map<string, string>): seq<string> {
    if segs == [] then []
    else [if segs[0].wildcard then Meaning(segs[0].s, params) else segs[0].s] + Resolve(segs[1..], params)
  }

  /** Substitution in the text of a segment list works segment by segment. */
  lemma {:induction false} SubstInRendered(segs: seq<Segment>, params: map<string, string>)
    requires Canonical(segs) && PlainNames(segs)
    ensures Flat(Render(segs))
    ensures Subst(Render(segs), params) == Concat(Resolve(segs, params))
  {
    if segs != [] {
      var seg, rest := segs[0], segs[1..];
      SubstInRendered(rest, params);
      if seg.wildcard {
        SubstPlaceholder(seg.s, Render(rest), params);
      } else {
        PlainFront(seg.s, Render(rest), params);
      }
    }
  }

  lemma {:induction false} ResolveAt(segs: seq<Segment>, params: map<string, string>, i: nat)
    requires i < |segs|
    ensures |Resolve(segs, params)| == |segs|
    ensures Resolve(segs, params)[i] == if segs[i].wildcard then Meaning(segs[i].s, params) else segs[i].s
  {
    if i > 0 {
      ResolveAt(segs[1..], params, i - 1);
    } else if |segs| > 1 {
      ResolveAt(segs[1..], params, 0);
    }
  }

  lemma LastOfName(segs: seq<Segment>, i: nat) returns (j: nat)
    requires i < |segs| && segs[i].wildcard
    ensures i <= j < |segs| && segs[j].wildcard && segs[j].s == segs[i].s
    ensures forall k :: j < k < |segs| && segs[k].wildcard ==> segs[k].s != segs[j].s
    decreases |segs| - i
  {
    if k :| i < k < |segs| && segs[k].wildcard && segs[k].s == segs[i].s {
      j := LastOfName(segs, k);
    } else {
      j := i;
    }
  }

  /** Captures that agree resolve to the pieces they came from. */
  lemma CapturesResolve(segs: seq<Segment>, s: string, pieces: seq<string>)
    requires Match(segs, s) == Some(pieces) && |pieces| == |segs| && Agree(segs, pieces)
    ensures Resolve(segs, Captures(segs, pieces)) == pieces
  {
    var params := Captures(segs, pieces);
    MatchIsSplit(segs, s);
    forall i | 0 <= i < |segs|
      ensures |Resolve(segs, params)| == |segs| && Resolve(segs, params)[i] == pieces[i]
    {
      ResolveAt(segs, params, i);
      assert PieceFits(segs, pieces, i);
      if segs[i].wildcard {
        var j := LastOfName(segs, i);
        LastCaptureWins(segs, pieces, j);
      }
    }
  }

  lemma {:induction false} PiecesComeFrom(pieces: seq<string>, c: char)
    ensures c !in Concat(pieces) ==> forall i :: 0 <= i < |pieces| ==> c !in pieces[i]
  {
    if pieces != [] {
      PiecesComeFrom(pieces[1..], c);
      if c !in Concat(pieces) {
        assert forall d :: d in pieces[0] ==> d in Concat(pieces);
        assert forall d :: d in Concat(pieces[1..]) ==> d in Concat(pieces);
      }
    }
  }

  /** A pattern as the parser makes it, a reference without opening braces, and their match. */
  ghost predicate Matched(segs: seq<Segment>, ref: string, pieces: seq<string>) {
    Canonical(segs) && '{' !in ref && Match(segs, ref) == Some(pieces) && |pieces| == |segs|
  }

  /** The parameters of a match on a brace-free reference are plain. */
  lemma CapturesArePlain(segs: seq<Segment>, s: string, pieces: seq<string>)
    requires Matched(segs, s, pieces)
    ensures Plain(Captures(segs, pieces))
  {
    MatchIsSplit(segs, s);
    PiecesComeFrom(pieces, '{');
    OnlyNamesCaptured(segs, pieces);
  }

  /** Whatever order Go walks the captured parameters in, a template made of a brace-free prefix
      and the pattern's own text resolves to the prefix and the matched reference. */
  lemma TemplateResolvesToReference(text: string, segs: seq<Segment>, ref: string, pieces: seq<string>,
                                    prefix: string, order: seq<string>)
    requires Parse(text) == Ok(segs) && PlainNames(segs)
    requires Match(segs, ref) == Some(pieces) && |pieces| == |segs| && Agree(segs, pieces)
    requires '{' !in ref && '{' !in prefix
    requires Enumerates(order, Captures(segs, pieces))
    ensures ReplaceEach(prefix + text, order, Captures(segs, pieces)) == prefix + ref
  {
    var params := Captures(segs, pieces);
    ParseThenRender(text);
    CapturesArePlain(segs, ref, pieces);
    SubstInRendered(segs, params);
    PlainFront(prefix, text, params);
    ReplaceEachIsSubst(prefix + text, order, params);
    CapturesResolve(segs, ref, pieces);
    MatchIsSplit(segs, ref);
  }

  lemma DistinctNamesAgree(segs: seq<Segment>, pieces: seq<string>)
    requires |segs| == |pieces| && DistinctNames(segs)
    ensures Agree(segs, pieces)
  {
  }

  /** The same, from what can be seen in the pattern alone: its names are distinct. */
  lemma DistinctTemplateResolvesToReference(text: string, segs: seq<Segment>, ref: string, pieces: seq<string>,
                                            prefix: string, order: seq<string>)
    requires Parse(text) == Ok(segs) && PlainNames(segs) && DistinctNames(segs)
    requires Match(segs, ref) == Some(pieces) && |pieces| == |segs|
    requires '{' !in ref && '{' !in prefix
    requires Enumerates(order, Captures(segs, pieces))
    ensures ReplaceEach(prefix + text, order, Captures(segs, pieces)) == prefix + ref
  {
    DistinctNamesAgree(segs, pieces);
    TemplateResolvesToReference(text, segs, ref, pieces, prefix, order);
  }

  // ----- repeated names -----

  /** Whatever matches is resolved to itself, in every order. */
  ghost predicate ResolvesBack(text: string, segs: seq<Segment>) {
    forall ref, pieces, order :: Matched(segs, ref, pieces) && Enumerates(order, Captures(segs, pieces)) ==>
      ReplaceEach(text, order, Captures(segs, pieces)) == ref
  }

  function OtherThan(c: char): char {
    if c == 'x' then 'y' else 'x'
  }

  /** One letter for wildcard `j`, not the one that the literal behind it starts with, and nothing
      for the other wildcards. */
  function OneLetter(segs: seq<Segment>, j: nat): (pieces: seq<string>)
    ensures |pieces| == |segs|
  {
    var next := if j + 1 < |segs| && segs[j + 1].s != "" then segs[j + 1].s[0] else '-';
    seq(|segs|, k requires 0 <= k < |segs| =>
      if !segs[k].wildcard then segs[k].s else if k == j then [OtherThan(next)] else "")
  }

  lemma ConcatFrom(pieces: seq<string>, k: nat)
    requires k < |pieces|
    ensures Concat(pieces[k..]) == pieces[k] + Concat(pieces[k + 1..])
  {
    assert pieces[k..][1..] == pieces[k + 1..];
  }

  lemma OneLetterFits(segs: seq<Segment>, j: nat, k: nat)
    requires Canonical(segs) && Alternating(segs) && k < |segs|
    ensures PieceFits(segs, OneLetter(segs, j), k)
  {
    var pieces := OneLetter(segs, j);
    if segs[k].wildcard && k + 1 < |segs| {
      var lit := segs[k + 1].s;
      var rest := Concat(pieces[k..]);
      assert segs[k].wildcard != segs[k + 1].wildcard;
      ConcatFrom(pieces, k);
      ConcatFrom(pieces, k + 1);
      assert rest[|pieces[k]|..] == lit + Concat(pieces[k + 2..]);
      assert rest[0..] == rest;
      assert FirstStop(rest, lit, |pieces[k]|);
    }
  }

  lemma {:induction false} PiecesStayPlain(pieces: seq<string>, c: char)
    requires forall i :: 0 <= i < |pieces| ==> c !in pieces[i]
    ensures c !in Concat(pieces)
  {
    if pieces != [] {
      PiecesStayPlain(pieces[1..], c);
    }
  }

  lemma OneLetterMatches(segs: seq<Segment>, j: nat)
    requires Canonical(segs) && Alternating(segs)
    ensures Matched(segs, Concat(OneLetter(segs, j)), OneLetter(segs, j))
  {
    var pieces := OneLetter(segs, j);
    forall k | 0 <= k < |segs|
      ensures PieceFits(segs, pieces, k)
    {
      OneLetterFits(segs, j, k);
    }
    SplitIsMatch(segs, Concat(pieces), pieces);
    PiecesStayPlain(pieces, '{');
  }

  /** With the pieces of `OneLetter`, every wildcard of the name resolves to the letter. */
  lemma OneLetterResolves(segs: seq<Segment>, j: nat, k: nat)
    requires j < |segs| && segs[j].wildcard && k < |segs|
    requires forall l :: j < l < |segs| && segs[l].wildcard ==> segs[l].s != segs[j].s
    ensures var pieces := OneLetter(segs, j);
            var resolved := Resolve(segs, Captures(segs, pieces));
            && |resolved| == |segs|
            && resolved[k] == if segs[k].wildcard && segs[k].s == segs[j].s then pieces[j] else pieces[k]
  {
    var pieces := OneLetter(segs, j);
    ResolveAt(segs, Captures(segs, pieces), k);
    if segs[k].wildcard {
      var l := LastOfName(segs, k);
      LastCaptureWins(segs, pieces, l);
    }
  }

  lemma {:induction false} LongerPieces(p: seq<string>, q: seq<string>, i: nat)
    requires |p| == |q| && forall k :: 0 <= k < |p| ==> |p[k]| <= |q[k]|
    ensures |Concat(p)| <= |Concat(q)|
    ensures i < |p| && |p[i]| < |q[i]| ==> |Concat(p)| < |Concat(q)|
  {
    if p != [] {
      LongerPieces(p[1..], q[1..], if i > 0 then i - 1 else |p|);
    }
  }

  /** A map can be walked in some order. */
  lemma {:induction false} SomeOrder(params: map<string, string>) returns (order: seq<string>)
    ensures Enumerates(order, params)
    decreases |params|
  {
    order := [];
    if params != map[] {
      var k :| k in params;
      var rest := params - {k};
      assert rest.Keys == params.Keys - {k};
      order := SomeOrder(rest);
      order := order + [k];
    }
  }

  lemma OneLetterLengthens(segs: seq<Segment>, i: nat, j: nat)
    requires i < j < |segs| && segs[i].wildcard && segs[j].wildcard && segs[i].s == segs[j].s
    requires forall l :: j < l < |segs| && segs[l].wildcard ==> segs[l].s != segs[j].s
    ensures var pieces := OneLetter(segs, j);
            |Concat(pieces)| < |Concat(Resolve(segs, Captures(segs, pieces)))|
  {
    var pieces := OneLetter(segs, j);
    var resolved := Resolve(segs, Captures(segs, pieces));
    forall k | 0 <= k < |segs|
      ensures |resolved| == |segs| && |pieces[k]| <= |resolved[k]|
    {
      OneLetterResolves(segs, j, k);
    }
    OneLetterResolves(segs, j, i);
    LongerPieces(pieces, resolved, i);
  }

  /** A repeated name makes some reference resolve to a longer text. */
  lemma RepeatedNameFails(text: string, segs: seq<Segment>, i: nat, j: nat)
    requires Parse(text) == Ok(segs) && Canonical(segs) && Alternating(segs) && PlainNames(segs)
    requires i < j < |segs| && segs[i].wildcard && segs[j].wildcard && segs[i].s == segs[j].s
    requires forall l :: j < l < |segs| && segs[l].wildcard ==> segs[l].s != segs[j].s
    ensures !ResolvesBack(text, segs)
  {
    var pieces := OneLetter(segs, j);
    var ref, params := Concat(pieces), Captures(segs, pieces);
    OneLetterMatches(segs, j);
    CapturesArePlain(segs, ref, pieces);
    var order := SomeOrder(params);
    ReplaceRendered(text, segs, params, order);
    OneLetterLengthens(segs, i, j);
  }

  lemma ReplaceRendered(text: string, segs: seq<Segment>, params: map<string, string>, order: seq<string>)
    requires Parse(text) == Ok(segs) && PlainNames(segs) && Plain(params) && Enumerates(order, params)
    ensures ReplaceEach(text, order, params) == Concat(Resolve(segs, params))
  {
    ParseThenRender(text);
    SubstInRendered(segs, params);
    ReplaceEachIsSubst(text, order, params);
  }

  lemma ResolvesOne(text: string, segs: seq<Segment>, ref: string, pieces: seq<string>, order: seq<string>)
    requires Parse(text) == Ok(segs) && PlainNames(segs) && DistinctNames(segs)
    requires Matched(segs, ref, pieces) && Enumerates(order, Captures(segs, pieces))
    ensures ReplaceEach(text, order, Captures(segs, pieces)) == ref
  {
    DistinctTemplateResolvesToReference(text, segs, ref, pieces, "", order);
    assert "" + text == text && "" + ref == ref;
  }

  lemma DistinctNamesResolve(text: string, segs: seq<Segment>)
    requires Parse(text) == Ok(segs) && PlainNames(segs) && DistinctNames(segs)
    ensures ResolvesBack(text, segs)
  {
    forall ref, pieces, order | Matched(segs, ref, pieces) && Enumerates(order, Captures(segs, pieces))
      ensures ReplaceEach(text, order, Captures(segs, pieces)) == ref
    {
      ResolvesOne(text, segs, ref, pieces, order);
    }
  }

  lemma RepeatedName(segs: seq<Segment>) returns (i: nat, j: nat)
    requires !DistinctNames(segs)
    ensures i < j < |segs| && segs[i].wildcard && segs[j].wildcard && segs[i].s == segs[j].s
    ensures forall l :: j < l < |segs| && segs[l].wildcard ==> segs[l].s != segs[j].s
  {
    var k;
    i, k :| 0 <= i < k < |segs| && segs[i].wildcard && segs[k].wildcard && segs[i].s == segs[k].s;
    j := LastOfName(segs, k);
  }

  /** A template leads back to every reference that it matches exactly when its names are
      distinct. */
  lemma DistinctNamesExactly(text: string, segs: seq<Segment>)
    requires Parse(text) == Ok(segs) && Alternating(segs) && PlainNames(segs)
    ensures DistinctNames(segs) <==> ResolvesBack(text, segs)
  {
    if DistinctNames(segs) {
      DistinctNamesResolve(text, segs);
    } else {
      ParseThenRender(text);
      var i, j := RepeatedName(segs);
      RepeatedNameFails(text, segs, i, j);
    }
  }

  function Twice(): seq<Segment> {
    [Segment("a", true), Segment("-", false), Segment("a", true)]
  }

  lemma TwiceRenders()
    ensures Render(Twice()) == "{a}-{a}"
  {
    var a, lit := Segment("a", true), Segment("-", false);
    assert [a, lit, a][1..] == [lit, a] && [lit, a][1..] == [a] && [a][1..] == [];
    assert Render([a]) == "{a}" && Render([lit, a]) == "-" + "{a}";
  }

  lemma TwiceParses()
    ensures Parse("{a}-{a}") == Ok(Twice())
  {
    TwiceRenders();
    RenderThenParse(Twice());
  }

  lemma TwiceMatches()
    ensures Match(Twice(), "x-y") == Some(["x", "-", "y"])
    ensures Captures(Twice(), ["x", "-", "y"]) == map["a" := "y"]
  {
    var pieces := ["x", "-", "y"];
    assert pieces[0..] == pieces && pieces[1..] == ["-", "y"];
    ConcatSmall("-", "y");
    assert FirstStop("x-y", "-", 1) by {
      assert "x-y"[1..] == "-y" && "x-y"[0..][0] == 'x';
    }
    assert PieceFits(Twice(), pieces, 0);
    SplitIsMatch(Twice(), "x-y", pieces);
    LastCaptureWins(Twice(), pieces, 2);
    OnlyNamesCaptured(Twice(), pieces);
  }

  lemma TwiceResolves()
    ensures Concat(Resolve(Twice(), map["a" := "y"])) == "y-y"
  {
    var a, lit, params := Segment("a", true), Segment("-", false), map["a" := "y"];
    assert [a, lit, a][1..] == [lit, a] && [lit, a][1..] == [a] && [a][1..] == [];
    assert Resolve([a], params) == ["y"];
    assert Resolve([lit, a], params) == ["-", "y"];
    assert Resolve(Twice(), params) == ["y", "-", "y"];
    assert ["y", "-", "y"][1..] == ["-", "y"];
    ConcatSmall("-", "y");
  }

  /** The last capture speaks for all: "{a}-{a}" turns "x-y" into "y-y". */
  lemma RepeatedNameWitness(order: seq<string>)
    requires Enumerates(order, map["a" := "y"])
    ensures Parse("{a}-{a}") == Ok(Twice()) && Match(Twice(), "x-y") == Some(["x", "-", "y"])
    ensures Captures(Twice(), ["x", "-", "y"]) == map["a" := "y"]
    ensures ReplaceEach("{a}-{a}", order, map["a" := "y"]) == "y-y"
  {
    TwiceParses();
    TwiceMatches();
    assert Plain(map["a" := "y"]);
    ReplaceRendered("{a}-{a}", Twice(), map["a" := "y"], order);
    TwiceResolves();
  }

  /** Without alternation a pattern may match nothing at all, and then a repeated name does no
      harm: no reference matches "{cb}{cb}c". */
  lemma NothingToResolve(ref: string)
    ensures Match([Segment("cb", true), Segment("cb", true), Segment("c", false)], ref) == None
  {
    var w, lit := Segment("cb", true), Segment("c", false);
    assert [w, w, lit][1..] == [w, lit] && [w, lit][1..] == [lit];
    var t := ref[StopAt(ref, "cb")..];
    StopAtStops(ref, "cb");
    assert t == "" || HasPrefix(t, "cb");
    assert t != "" ==> t[0..] == t && t[0] == 'c';
    assert StopAt(t, "c") == 0 && t[0..] == t;
    LiteralAlone("c", t);
  }

  // ----- orders and matches -----

  /** The captures of a match, or those with a platform written over them. */
  ghost predicate HeldAfter(segs: seq<Segment>, ref: string, pieces: seq<string>, params: map<string, string>) {
    && Matched(segs, ref, pieces)
    && (|| params == Captures(segs, pieces)
        || exists p :: PlainPlatform(p) && params == PlatformParams(Captures(segs, pieces), p))
  }

  /** Parameters that an action can hold. */
  ghost predicate CanOccur(params: map<string, string>) {
    exists segs, ref, pieces :: HeldAfter(segs, ref, pieces, params)
  }

  lemma OccurringIsPlain(params: map<string, string>)
    requires CanOccur(params)
    ensures Plain(params)
  {
    var segs, ref, pieces :| HeldAfter(segs, ref, pieces, params);
    var captures := Captures(segs, pieces);
    CapturesArePlain(segs, ref, pieces);
    if params != captures {
      var p :| PlainPlatform(p) && params == PlatformParams(captures, p);
      PlatformParamsArePlain(captures, p);
    }
  }

  /** Any two names can be captured with the first one empty: by "{k}:{y}" from ":" and the value. */
  lemma TwoCaptures(k: string, y: string, v: string)
    requires PlainName(k) && PlainName(y) && k != y && '{' !in v
    ensures CanOccur(map[k := "", y := v])
  {
    var segs := [Segment(k, true), Segment(":", false), Segment(y, true)];
    var pieces, ref := ["", ":", v], ":" + v;
    assert pieces[0..] == pieces && pieces[1..] == [":", v];
    ConcatSmall(":", v);
    assert ref[0..] == ref;
    assert FirstStop(ref, ":", 0);
    assert PieceFits(segs, pieces, 0);
    SplitIsMatch(segs, ref, pieces);
    LastCaptureWins(segs, pieces, 0);
    LastCaptureWins(segs, pieces, 2);
    OnlyNamesCaptured(segs, pieces);
    assert HeldAfter(segs, ref, pieces, map[k := "", y := v]);
  }

  /** The order in which Go walks the parameters of an action does not matter exactly for the flat
      templates. */
  lemma OrderIrrelevantForMatchesExactly(s: string)
    ensures Flat(s) <==>
            forall params, one, two ::
              CanOccur(params) && Enumerates(one, params) && Enumerates(two, params) ==>
              ReplaceEach(s, one, params) == ReplaceEach(s, two, params)
  {
    if Flat(s) {
      forall params, one, two | CanOccur(params) && Enumerates(one, params) && Enumerates(two, params)
        ensures ReplaceEach(s, one, params) == ReplaceEach(s, two, params)
      {
        OccurringIsPlain(params);
        ReplaceEachIsSubst(s, one, params);
        ReplaceEachIsSubst(s, two, params);
      }
    } else {
      var k, y, v := OrdersDisagree(s);
      TwoOrders(k, y, v);
      TwoCaptures(k, y, v);
    }
  }

  // ----- from a configuration -----

  /** From a configuration to a base image.  A rule that mirrors images, its base image a prefix and
      its own pattern, resolves every reference that it matches to the prefix and that reference. */
  method ResolveBaseImage(conf: ImageSpec, ref: string) returns (base: Option<string>)
    ensures base.Some? <==> NewRule(conf).Ok? && Match(NewRule(conf).value.segments, ref).Some?
    ensures base.Some? && PlainNames(NewRule(conf).value.segments) && DistinctNames(NewRule(conf).value.segments) ==>
              forall prefix :: conf.baseImage == prefix + WithDefaultTag(conf.pattern) && '{' !in prefix && '{' !in ref ==>
                base.value == prefix + ref
  {
    var rule := NewRule(conf);
    if rule.Err? {
      return None;
    }
    var action, ok := MatchRule(rule.value, ref);
    if !ok {
      return None;
    }
    var resolved := action.GetBaseImage();
    ghost var order :| Enumerates(order, action.params) && resolved == ReplaceEach(conf.baseImage, order, action.params);
    MirrorResolves(conf, ref, order);
    return Some(resolved);
  }

  lemma MirrorResolves(conf: ImageSpec, ref: string, order: seq<string>)
    requires NewRule(conf).Ok? && Match(NewRule(conf).value.segments, ref).Some?
    requires |Match(NewRule(conf).value.segments, ref).value| == |NewRule(conf).value.segments|
    requires Enumerates(order, Captures(NewRule(conf).value.segments, Match(NewRule(conf).value.segments, ref).value))
    ensures var segs := NewRule(conf).value.segments;
            var params := Captures(segs, Match(segs, ref).value);
            PlainNames(segs) && DistinctNames(segs) ==>
              forall prefix :: conf.baseImage == prefix + WithDefaultTag(conf.pattern) && '{' !in prefix && '{' !in ref ==>
                ReplaceEach(conf.baseImage, order, params) == prefix + ref
  {
    var segs := NewRule(conf).value.segments;
    var pieces := Match(segs, ref).value;
    var text := WithDefaultTag(conf.pattern);
    if PlainNames(segs) && DistinctNames(segs) {
      forall prefix | conf.baseImage == prefix + text && '{' !in prefix && '{' !in ref
        ensures ReplaceEach(conf.baseImage, order, Captures(segs, pieces)) == prefix + ref
      {
        DistinctTemplateResolvesToReference(text, segs, ref, pieces, prefix, order);
      }
    }
  }
}
