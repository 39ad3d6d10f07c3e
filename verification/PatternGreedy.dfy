/** When leftmost matching without backtracking loses nothing. */
module PatternGreedy {
  import opened Prelude
  import opened Text
  import opened PatternSyntax
  import opened PatternMatch

  /** Some choice of texts for the wildcards spells `s`. */
  ghost predicate Produces(segs: seq<Segment>, s: string, texts: seq<string>) {
    && |texts| == |segs|
    && Concat(texts) == s
    && (forall i :: 0 <= i < |segs| && !segs[i].wildcard ==> texts[i] == segs[i].s)
  }

  /** Literals and wildcards take turns. */
  ghost predicate Alternating(segs: seq<Segment>) {
    forall i :: 0 <= i < |segs| - 1 ==> segs[i].wildcard != segs[i + 1].wildcard
  }

  predicate OpenAt(segs: seq<Segment>, i: nat)
    requires i + 1 < |segs|
  {
    segs[i].wildcard || segs[i + 1].wildcard
  }

  /** No literal follows a literal; every parsed pattern is like that. */
  ghost predicate NoTwoLiterals(segs: seq<Segment>) {
    forall i :: 0 <= i < |segs| - 1 ==> OpenAt(segs, i)
  }

  ghost predicate StopsAt(segs: seq<Segment>, texts: seq<string>, i: nat)
    requires i + 1 < |segs| == |texts|
  {
    segs[i].wildcard && segs[i + 1].wildcard ==> FirstStop(Concat(texts[i..]), segs[i + 1].s, |texts[i]|)
  }

  /** The matcher takes the name of a wildcard for a text to look for when the wildcard stands
      behind another one.  The text of that other one ends where the name first occurs, or at the
      end. */
  ghost predicate StopsAtNames(segs: seq<Segment>, texts: seq<string>)
    requires |segs| == |texts|
  {
    forall i :: 0 <= i < |segs| - 1 ==> StopsAt(segs, texts, i)
  }

  /** Texts that spell the input and respect the names. */
  ghost predicate Spells(segs: seq<Segment>, s: string, texts: seq<string>) {
    Produces(segs, s, texts) && StopsAtNames(segs, texts)
  }

  /** `p` is `q`, or shorter at the first place where they differ. */
  predicate NoLonger(p: seq<string>, q: seq<string>) {
    p == [] || q == [] || |p[0]| < |q[0]| || (p[0] == q[0] && NoLonger(p[1..], q[1..]))
  }

  function Last<T>(xs: seq<T>): T
    requires xs != []
  {
    xs[|xs| - 1]
  }

  lemma ProducesTail(segs: seq<Segment>, s: string, texts: seq<string>)
    requires segs != [] && Produces(segs, s, texts)
    ensures s == texts[0] + Concat(texts[1..])
    ensures s[|texts[0]|..] == Concat(texts[1..])
    ensures Produces(segs[1..], s[|texts[0]|..], texts[1..])
  {
  }

  lemma OpenTail(segs: seq<Segment>)
    requires segs != [] && NoTwoLiterals(segs)
    ensures NoTwoLiterals(segs[1..])
    ensures |segs| > 1 ==> segs[0].wildcard || segs[1].wildcard
  {
    assert |segs| > 1 ==> OpenAt(segs, 0);
    forall i | 0 <= i < |segs[1..]| - 1
      ensures OpenAt(segs[1..], i)
    {
      assert OpenAt(segs, i + 1);
    }
  }

  lemma SpellsTail(segs: seq<Segment>, s: string, texts: seq<string>)
    requires segs != [] && Spells(segs, s, texts)
    ensures Spells(segs[1..], s[|texts[0]|..], texts[1..])
    ensures |segs| > 1 && segs[0].wildcard && segs[1].wildcard ==> FirstStop(s, segs[1].s, |texts[0]|)
  {
    ProducesTail(segs, s, texts);
    assert texts[0..] == texts;
    assert |segs| > 1 ==> StopsAt(segs, texts, 0);
    forall i | 0 <= i < |segs[1..]| - 1
      ensures StopsAt(segs[1..], texts[1..], i)
    {
      assert texts[1..][i..] == texts[i + 1..];
      assert StopsAt(segs, texts, i + 1);
    }
  }

  /** The text from the first occurrence of a text on; nothing when it does not occur. */
  function FromStop(s: string, text: string): string {
    s[StopAt(s, text)..]
  }

  lemma StepFound(segs: seq<Segment>, s: string, n: nat)
    requires segs != [] && PieceEnd(segs, s) == Some(n) && Match(segs[1..], s[n..]).Some?
    ensures Match(segs, s) == Some([s[..n]] + Match(segs[1..], s[n..]).value)
    ensures ([s[..n]] + Match(segs[1..], s[n..]).value)[1..] == Match(segs[1..], s[n..]).value
  {
  }

  /** Text in front makes the first stop come no later, and all that was behind it is still there. */
  lemma EarlierStop(x: string, u: string, text: string) returns (y: string)
    ensures FromStop(x + u, text) == y + FromStop(u, text)
    ensures HasPrefix(FromStop(u, text), text) ==> HasPrefix(FromStop(x + u, text), text)
  {
    var s, n := x + u, |x| + StopAt(u, text);
    StopAtStops(u, text);
    assert s[n..] == FromStop(u, text);
    if HasPrefix(s[n..], text) {
      StopAtIsFirst(s, text, n);
    } else {
      assert n == |s|;
    }
    var m := StopAt(s, text);
    y := s[m..n];
    Cut(s, m, n);
  }

  /** A first wildcard leaves the rest of the pattern to the text from its stop on. */
  lemma WildcardStep(segs: seq<Segment>, s: string)
    requires |segs| > 1 && segs[0].wildcard
    ensures var rest := Match(segs[1..], FromStop(s, segs[1].s));
            && (Match(segs, s).Some? <==> rest.Some?)
            && (rest.Some? ==> |Match(segs, s).value| == |rest.value| + 1)
            && (rest.Some? && rest.value != [] ==> Last(Match(segs, s).value) == Last(rest.value))
  {
  }

  lemma ShiftLiteral(y: string, lit: string, t: string) returns (z: string)
    requires HasPrefix(y + (lit + t), lit)
    ensures y + (lit + t) == lit + (z + t)
  {
    var all := y + (lit + t);
    z := all[|lit|..|y| + |lit|];
    assert all[|y| + |lit|..] == t;
    Cut(all, |lit|, |y| + |lit|);
    assert all == lit + all[|lit|..];
  }

  lemma LiteralFirst(segs: seq<Segment>, t: string)
    requires segs != [] && !segs[0].wildcard
    ensures Match(segs, segs[0].s + t) == InFront([segs[0].s], Match(segs[1..], t))
  {
    var s := segs[0].s + t;
    assert s[|segs[0].s|..] == t && s[..|segs[0].s|] == segs[0].s;
  }

  lemma LastInFront(piece: string, r: Option<seq<string>>)
    requires r.Some? && r.value != []
    ensures var all := InFront([piece], r);
            all.Some? && |all.value| == |r.value| + 1 && Last(all.value) == Last(r.value)
  {
  }

  /** The pattern still matches with more text in front, and its last capture gets no shorter. */
  ghost predicate Outdone(segs: seq<Segment>, u: string, longer: string) {
    && Match(segs, u).Some? && Match(segs, longer).Some?
    && |Match(segs, u).value| == |Match(segs, longer).value| == |segs| > 0
    && |Last(Match(segs, longer).value)| >= |Last(Match(segs, u).value)|
  }

  lemma OutdoneAlone(segs: seq<Segment>, x: string, u: string)
    requires |segs| == 1 && segs[0].wildcard
    ensures Outdone(segs, u, x + u)
  {
    WildcardAlone(segs, u);
    WildcardAlone(segs, x + u);
  }

  /** What goes for the rest of the pattern goes for the pattern with a wildcard in front. */
  lemma OutdoneFromStop(segs: seq<Segment>, u: string, longer: string)
    requires |segs| > 1 && segs[0].wildcard
    requires Outdone(segs[1..], FromStop(u, segs[1].s), FromStop(longer, segs[1].s))
    ensures Outdone(segs, u, longer)
  {
    WildcardStep(segs, u);
    WildcardStep(segs, longer);
  }

  /** And with a literal in front. */
  lemma OutdoneBehindLiteral(segs: seq<Segment>, t: string, longer: string)
    requires segs != [] && !segs[0].wildcard && Outdone(segs[1..], t, longer)
    ensures Outdone(segs, segs[0].s + t, segs[0].s + longer)
  {
    LiteralFirst(segs, t);
    LiteralFirst(segs, longer);
    LastInFront(segs[0].s, Match(segs[1..], t));
    LastInFront(segs[0].s, Match(segs[1..], longer));
  }

  lemma StartsWithLiteral(segs: seq<Segment>, v: string) returns (t: string)
    requires segs != [] && !segs[0].wildcard && Match(segs, v).Some?
    ensures v == segs[0].s + t && Match(segs[1..], t).Some?
  {
    t := v[|segs[0].s|..];
    assert v == segs[0].s + t;
    LiteralFirst(segs, t);
  }

  /** A pattern between two wildcards still matches when more text comes in front, and its last
      capture gets no shorter. */
  lemma {:induction false} MoreInFront(segs: seq<Segment>, x: string, u: string)
    requires segs != [] && segs[0].wildcard && NoTwoLiterals(segs) && Last(segs).wildcard
    requires Match(segs, u).Some?
    ensures Outdone(segs, u, x + u)
    decreases |segs|, 1
  {
    if |segs| == 1 {
      OutdoneAlone(segs, x, u);
    } else {
      WildcardStep(segs, u);
      OpenTail(segs);
      var y := EarlierStop(x, u, segs[1].s);
      MoreFromStop(segs[1..], y, FromStop(u, segs[1].s));
      OutdoneFromStop(segs, u, x + u);
    }
  }

  /** A text that starts with the next segment's literal, if that is one, and more in front of it. */
  lemma {:induction false} MoreFromStop(segs: seq<Segment>, y: string, v: string)
    requires segs != [] && NoTwoLiterals(segs) && Last(segs).wildcard && Match(segs, v).Some?
    requires !segs[0].wildcard ==> HasPrefix(y + v, segs[0].s)
    ensures Outdone(segs, v, y + v)
    decreases |segs|, 2
  {
    if segs[0].wildcard {
      MoreInFront(segs, y, v);
    } else {
      var t := StartsWithLiteral(segs, v);
      var z := ShiftLiteral(y, segs[0].s, t);
      OpenTail(segs);
      MoreInFront(segs[1..], z, t);
      OutdoneBehindLiteral(segs, t, z + t);
    }
  }

  /** For patterns that end in a wildcard the matcher finds a match whenever any choice of texts
      that respects the names spells the input, and its captures are the lexicographically
      shortest. */
  lemma {:induction false} GreedyIsComplete(segs: seq<Segment>, s: string, texts: seq<string>)
    requires segs != [] && NoTwoLiterals(segs) && Last(segs).wildcard && Spells(segs, s, texts)
    ensures Match(segs, s).Some?
    ensures |Match(segs, s).value| == |segs|
    ensures NoLonger(Match(segs, s).value, texts)
    ensures |Last(Match(segs, s).value)| >= |Last(texts)|
    decreases |segs|
  {
    var first := texts[0];
    ProducesTail(segs, s, texts);
    var rest := s[|first|..];
    assert s[..|first|] == first;
    if |segs| == 1 {
      assert texts[1..] == [];
      WildcardAlone(segs, s);
    } else {
      SpellsTail(segs, s, texts);
      OpenTail(segs);
      GreedyIsComplete(segs[1..], rest, texts[1..]);
      if !segs[0].wildcard {
        StepFound(segs, s, |first|);
      } else if segs[1].wildcard {
        StopIsUnique(s, segs[1].s, |first|);
        StepFound(segs, s, |first|);
      } else {
        GreedyWildcard(segs, s, texts);
      }
    }
  }

  /** The case of a wildcard in front of a literal, which may occur before the chosen text ends. */
  lemma GreedyWildcard(segs: seq<Segment>, s: string, texts: seq<string>)
    requires |segs| > 1 && NoTwoLiterals(segs) && Last(segs).wildcard && Produces(segs, s, texts)
    requires segs[0].wildcard && !segs[1].wildcard
    requires var found := Match(segs[1..], s[|texts[0]|..]);
             found.Some? && |found.value| == |segs| - 1 && NoLonger(found.value, texts[1..])
             && |Last(found.value)| >= |Last(texts)|
    ensures Match(segs, s).Some?
    ensures |Match(segs, s).value| == |segs|
    ensures NoLonger(Match(segs, s).value, texts)
    ensures |Last(Match(segs, s).value)| >= |Last(texts)|
  {
    var first, lit := texts[0], segs[1].s;
    ProducesTail(segs, s, texts);
    var rest := s[|first|..];
    StopAtIsFirst(s, lit, |first|);
    var n := StopAt(s, lit);
    if n < |first| {
      Cut(s, n, |first|);
      OpenTail(segs);
      MoreFromStop(segs[1..], s[n..|first|], rest);
    }
    StepFound(segs, s, n);
  }

  lemma AlternatingSpells(segs: seq<Segment>, s: string, texts: seq<string>)
    requires Alternating(segs) && Produces(segs, s, texts)
    ensures NoTwoLiterals(segs) && Spells(segs, s, texts)
  {
    forall i | 0 <= i < |segs| - 1
      ensures OpenAt(segs, i) && StopsAt(segs, texts, i)
    {
      assert segs[i].wildcard != segs[i + 1].wildcard;
    }
  }

  lemma MatchSpells(segs: seq<Segment>, s: string)
    requires Match(segs, s).Some?
    ensures Spells(segs, s, Match(segs, s).value)
  {
    MatchIsProduced(segs, s);
    MatchIsSplit(segs, s);
    var pieces := Match(segs, s).value;
    forall i | 0 <= i < |segs| - 1
      ensures StopsAt(segs, pieces, i)
    {
      assert PieceFits(segs, pieces, i);
    }
  }

  /** The whole truth about patterns that end in a wildcard, whatever stands side by side in them. */
  lemma MatchIffSpelled(segs: seq<Segment>, s: string)
    requires segs != [] && NoTwoLiterals(segs) && Last(segs).wildcard
    ensures Match(segs, s).Some? <==> exists texts :: Spells(segs, s, texts)
  {
    if Match(segs, s).Some? {
      MatchSpells(segs, s);
    }
    forall texts | Spells(segs, s, texts)
      ensures Match(segs, s).Some?
    {
      GreedyIsComplete(segs, s, texts);
    }
  }

  /** Without wildcards side by side, success is the same as being spelled by some texts. */
  lemma MatchIffProduced(segs: seq<Segment>, s: string)
    requires segs != [] && Alternating(segs) && Last(segs).wildcard
    ensures Match(segs, s).Some? <==> exists texts :: Produces(segs, s, texts)
  {
    if Match(segs, s).Some? {
      MatchIsProduced(segs, s);
    }
    forall texts | Produces(segs, s, texts)
      ensures Match(segs, s).Some?
    {
      AlternatingSpells(segs, s, texts);
      GreedyIsComplete(segs, s, texts);
    }
  }

  /** Whatever the pattern, a match is a choice of texts. */
  lemma MatchIsProduced(segs: seq<Segment>, s: string)
    requires Match(segs, s).Some?
    ensures Produces(segs, s, Match(segs, s).value)
  {
    MatchIsSplit(segs, s);
    var pieces := Match(segs, s).value;
    assert forall i :: 0 <= i < |segs| && !segs[i].wildcard ==> PieceFits(segs, pieces, i);
  }

  // ----- from one wildcard on -----

  /** Up to any wildcard the rest of the pattern does not matter; what that wildcard would capture
      if it were the last segment is what it and the rest then work on. */
  lemma {:induction false} MatchFromWildcard(front: seq<Segment>, a: Segment, rest: seq<Segment>, s: string)
    requires a.wildcard
    ensures var open := Match(front + [a], s);
            open.Some? ==> |open.value| == |front| + 1
    ensures var open := Match(front + [a], s);
            Match(front + [a] + rest, s).Some? <==> open.Some? && Match([a] + rest, Last(open.value)).Some?
  {
    if front == [] {
      assert front + [a] == [a];
      WildcardAlone([a], s);
    } else {
      var segs, open := front + [a] + rest, front + [a];
      assert segs[1..] == front[1..] + [a] + rest && open[1..] == front[1..] + [a];
      var end := PieceEnd(segs, s);
      assert PieceEnd(open, s) == end;
      if end.Some? {
        MatchFromWildcard(front[1..], a, rest, s[end.value..]);
      }
    }
  }

  // ----- patterns that end in a literal -----

  predicate EndsWith(s: string, text: string) {
    |text| <= |s| && s[|s| - |text|..] == text
  }

  /** With a literal behind the last wildcard, the first occurrence of that literal in what the
      wildcard would otherwise take has to be its last. */
  lemma MatchWithTrailingLiteral(segs: seq<Segment>, lit: string, s: string)
    requires segs != [] && Last(segs).wildcard
    ensures var open := Match(segs, s);
            open.Some? ==> |open.value| == |segs|
    ensures var open := Match(segs, s);
            Match(segs + [Segment(lit, false)], s).Some? <==>
            open.Some? && EndsWith(Last(open.value), lit)
            && StopAt(Last(open.value), lit) + |lit| == |Last(open.value)|
  {
    var k := |segs| - 1;
    assert segs == segs[..k] + [segs[k]];
    MatchFromWildcard(segs[..k], segs[k], [Segment(lit, false)], s);
    if Match(segs, s).Some? {
      TrailingOnce(segs[k], lit, Last(Match(segs, s).value));
    }
  }

  lemma StopEnds(s: string, lit: string)
    ensures FromStop(s, lit) == lit <==> EndsWith(s, lit) && StopAt(s, lit) + |lit| == |s|
  {
  }

  lemma TrailingOnce(a: Segment, lit: string, s: string)
    requires a.wildcard
    ensures Match([a] + [Segment(lit, false)], s).Some? <==> EndsWith(s, lit) && StopAt(s, lit) + |lit| == |s|
  {
    var both := [a] + [Segment(lit, false)];
    assert both[1..] == [Segment(lit, false)];
    WildcardStep(both, s);
    LiteralAlone(lit, FromStop(s, lit));
    StopEnds(s, lit);
  }

  lemma WildcardAlone(segs: seq<Segment>, s: string)
    requires |segs| == 1 && segs[0].wildcard
    ensures Match(segs, s) == Some([s])
  {
    assert segs[1..] == [] && s[|s|..] == "" && s[..|s|] == s;
    assert [s] + [] == [s];
  }

  lemma LiteralAlone(lit: string, s: string)
    ensures Match([Segment(lit, false)], s).Some? <==> s == lit
  {
    var segs := [Segment(lit, false)];
    assert segs[1..] == [];
    if HasPrefix(s, lit) {
      assert s == lit + s[|lit|..];
    }
  }

  /** For an alternating pattern that ends in a literal, the matcher misses a text that some
      choice of texts spells exactly when the capture the pattern would make without that
      literal ends in the literal and also contains it earlier. */
  lemma TrailingLiteralMissesExactly(segs: seq<Segment>, lit: string, s: string)
    requires segs != [] && Alternating(segs) && Last(segs).wildcard
    ensures var full := segs + [Segment(lit, false)];
            var open := Match(segs, s);
            (Match(full, s).None? && exists texts :: Produces(full, s, texts)) <==>
            open.Some? && open.value != [] && EndsWith(Last(open.value), lit)
            && StopAt(Last(open.value), lit) + |lit| < |Last(open.value)|
  {
    var full := segs + [Segment(lit, false)];
    MatchWithTrailingLiteral(segs, lit, s);
    forall texts | Produces(full, s, texts)
      ensures Match(segs, s).Some? && EndsWith(Last(Match(segs, s).value), lit)
    {
      LastCaptureEnds(segs, lit, s, texts);
    }
    if Match(segs, s).Some? && EndsWith(Last(Match(segs, s).value), lit) {
      var texts := CutLiteral(segs, lit, s);
      var r := Last(Match(segs, s).value);
      StopAtIsFirst(r, lit, |r| - |lit|);
    }
  }

  lemma LastCaptureEnds(segs: seq<Segment>, lit: string, s: string, texts: seq<string>)
    requires segs != [] && Alternating(segs) && Last(segs).wildcard
    requires Produces(segs + [Segment(lit, false)], s, texts)
    ensures Match(segs, s).Some? && |Match(segs, s).value| == |segs|
    ensures EndsWith(Last(Match(segs, s).value), lit)
  {
    var k := |segs| - 1;
    assert texts[k + 1] == lit;
    var joined := texts[..k] + [texts[k] + lit];
    assert texts == texts[..k] + [texts[k], lit];
    ConcatAppend(texts[..k], [texts[k], lit]);
    ConcatAppend(texts[..k], [texts[k] + lit]);
    ConcatSmall(texts[k], lit);
    ConcatSmall(texts[k] + lit, "");
    assert Produces(segs, s, joined);
    AlternatingSpells(segs, s, joined);
    GreedyIsComplete(segs, s, joined);
    MatchIsProduced(segs, s);
    var pieces := Match(segs, s).value;
    SuffixesAgree(pieces, joined, s);
  }

  /** Two ways to cut a text: the longer last piece ends in the shorter one. */
  lemma SuffixesAgree(p: seq<string>, q: seq<string>, s: string)
    requires p != [] && q != [] && Concat(p) == s == Concat(q) && |Last(p)| >= |Last(q)|
    ensures EndsWith(Last(p), Last(q))
    ensures forall t :: EndsWith(Last(q), t) ==> EndsWith(Last(p), t)
  {
    LastIsSuffix(p);
    LastIsSuffix(q);
    var a, b := Last(p), Last(q);
    assert a[|a| - |b|..] == s[|s| - |a|..][|a| - |b|..] == s[|s| - |b|..];
    forall t | EndsWith(b, t)
      ensures EndsWith(a, t)
    {
      assert a[|a| - |t|..] == a[|a| - |b|..][|b| - |t|..];
    }
  }

  lemma LastIsSuffix(p: seq<string>)
    requires p != []
    ensures EndsWith(Concat(p), Last(p))
  {
    var k := |p| - 1;
    assert p == p[..k] + [p[k]];
    ConcatAppend(p[..k], [p[k]]);
    assert Concat([p[k]]) == p[k];
  }

  lemma CutLiteral(segs: seq<Segment>, lit: string, s: string) returns (texts: seq<string>)
    requires segs != [] && Last(segs).wildcard && Match(segs, s).Some?
    requires |Match(segs, s).value| == |segs| && EndsWith(Last(Match(segs, s).value), lit)
    ensures Produces(segs + [Segment(lit, false)], s, texts)
  {
    MatchIsProduced(segs, s);
    texts := WithLiteralCut(segs, lit, s, Match(segs, s).value);
  }

  lemma LastCut(p: seq<string>, head: string, lit: string)
    requires p != [] && Last(p) == head + lit
    ensures Concat(p[..|p| - 1] + [head, lit]) == Concat(p)
  {
    var k := |p| - 1;
    assert p == p[..k] + [p[k]];
    ConcatAppend(p[..k], [p[k]]);
    ConcatAppend(p[..k], [head, lit]);
    ConcatSmall(head, lit);
    ConcatSmall(p[k], "");
  }

  lemma WithLiteralCut(segs: seq<Segment>, lit: string, s: string, p: seq<string>) returns (texts: seq<string>)
    requires segs != [] && Last(segs).wildcard && Produces(segs, s, p) && EndsWith(Last(p), lit)
    ensures Produces(segs + [Segment(lit, false)], s, texts)
  {
    var k, r, full := |p| - 1, Last(p), segs + [Segment(lit, false)];
    var head := r[..|r| - |lit|];
    assert r == head + lit;
    texts := p[..k] + [head, lit];
    LastCut(p, head, lit);
    forall i | 0 <= i < |full| && !full[i].wildcard
      ensures texts[i] == full[i].s
    {
      assert i < k ==> full[i] == segs[i];
    }
  }

  function DashPattern(): seq<Segment> {
    [Segment("a", true), Segment("-x", false)]
  }

  lemma DashPatternParses()
    ensures Parse("{a}-x") == Ok(DashPattern())
  {
    var a, lit := Segment("a", true), Segment("-x", false);
    assert [a, lit][1..] == [lit] && [lit][1..] == [];
    assert Render([lit]) == "-x";
    assert Render([a, lit]) == "{a}" + "-x" == "{a}-x";
    RenderThenParse([a, lit]);
  }

  lemma DashPatternMisses()
    ensures Match(DashPattern(), "foo-x-x") == None
  {
    var segs, s, n := DashPattern(), "foo-x-x", StopAt("foo-x-x", "-x");
    assert HasPrefix(s[3..], "-x") by {
      assert s[3..] == "-x" + "-x";
    }
    StopAtIsFirst(s, "-x", 3);
    assert segs[1..] == [Segment("-x", false)];
    LiteralAlone("-x", s[n..]);
  }

  /** The text "foo-x-x" is spelled by "{a}-x", yet the matcher stops at the first "-x". */
  lemma TrailingLiteralWitness()
    ensures Parse("{a}-x") == Ok(DashPattern())
    ensures Match(DashPattern(), "foo-x-x") == None
    ensures Produces(DashPattern(), "foo-x-x", ["foo-x", "-x"])
  {
    DashPatternParses();
    DashPatternMisses();
    ConcatSmall("foo-x", "-x");
    assert "foo-x" + "-x" == "foo-x-x";
  }

  // ----- two wildcards in a row -----

  /** The last capture of a match. */
  function LastCapture(segs: seq<Segment>, s: string): string {
    match Match(segs, s)
    case Some(pieces) => if pieces == [] then "" else Last(pieces)
    case None => ""
  }

  /** Of two wildcards in a row the first one runs to the name of the second, and the rest of the
      pattern gets what begins there. */
  lemma MatchWithPair(front: seq<Segment>, a: Segment, b: Segment, rest: seq<Segment>, s: string)
    requires a.wildcard && b.wildcard
    ensures Match(front + [a] + ([b] + rest), s).Some? <==>
            Match(front + [a], s).Some? && Match([b] + rest, FromStop(LastCapture(front + [a], s), b.s)).Some?
  {
    MatchFromWildcard(front, a, [b] + rest, s);
    var both, r := [a] + ([b] + rest), LastCapture(front + [a], s);
    assert both[1..] == [b] + rest && both[1] == b;
    assert PieceEnd(both, r) == Some(StopAt(r, b.s));
  }

  lemma JoinTexts(front: seq<Segment>, a: Segment, rest: seq<Segment>, s: string, texts: seq<string>)
    requires a.wildcard && Produces(front + [a] + rest, s, texts)
    ensures Produces(front + [a], s, texts[..|front|] + [Concat(texts[|front|..])])
  {
    var k, segs := |front|, front + [a] + rest;
    var last := Concat(texts[k..]);
    assert texts == texts[..k] + texts[k..];
    ConcatAppend(texts[..k], texts[k..]);
    ConcatAppend(texts[..k], [last]);
    ConcatSmall(last, "");
    assert forall i :: 0 <= i < k ==> segs[i] == front[i] == (front + [a])[i];
  }

  /** Two wildcards in a row can spell what one of them can. */
  lemma PairSpellsAsOne(front: seq<Segment>, a: Segment, b: Segment, rest: seq<Segment>, s: string)
    requires a.wildcard && b.wildcard
    ensures (exists texts :: Produces(front + [a] + ([b] + rest), s, texts)) <==>
            (exists texts :: Produces(front + ([b] + rest), s, texts))
  {
    var pair, one := front + [a] + ([b] + rest), front + ([b] + rest);
    forall texts | Produces(pair, s, texts)
      ensures exists one' :: Produces(one, s, one')
    {
      var merged := MergePair(front, a, b, rest, s, texts);
    }
    forall texts | Produces(one, s, texts)
      ensures exists both :: Produces(pair, s, both)
    {
      var both := SplitPair(front, a, b, rest, s, texts);
    }
  }

  lemma ConcatThree(a: seq<string>, b: seq<string>, c: seq<string>)
    ensures Concat(a + (b + c)) == Concat(a) + (Concat(b) + Concat(c))
  {
    ConcatAppend(a, b + c);
    ConcatAppend(b, c);
  }

  lemma ConcatMerged(front: seq<string>, x: string, y: string, tail: seq<string>)
    ensures Concat(front + ([x, y] + tail)) == Concat(front + ([x + y] + tail))
  {
    ConcatThree(front, [x, y], tail);
    ConcatThree(front, [x + y], tail);
    ConcatSmall(x, y);
    ConcatSmall(x + y, "");
  }

  function Merged(texts: seq<string>, k: nat): seq<string>
    requires k + 1 < |texts|
  {
    texts[..k] + ([texts[k] + texts[k + 1]] + texts[k + 2..])
  }

  lemma CutAround<T>(xs: seq<T>, k: nat)
    requires k + 1 < |xs|
    ensures xs[..k] + ([xs[k], xs[k + 1]] + xs[k + 2..]) == xs
  {
  }

  lemma MergedSpellsTheSame(texts: seq<string>, k: nat)
    requires k + 1 < |texts|
    ensures Concat(Merged(texts, k)) == Concat(texts)
  {
    CutAround(texts, k);
    ConcatMerged(texts[..k], texts[k], texts[k + 1], texts[k + 2..]);
  }

  lemma MergedAt(texts: seq<string>, k: nat, i: nat)
    requires k + 1 < |texts| && i + 1 < |texts| && i != k
    ensures |Merged(texts, k)| == |texts| - 1 && Merged(texts, k)[i] == texts[if i < k then i else i + 1]
  {
  }

  lemma MergePair(front: seq<Segment>, a: Segment, b: Segment, rest: seq<Segment>, s: string, texts: seq<string>)
    returns (merged: seq<string>)
    requires a.wildcard && b.wildcard && Produces(front + [a] + ([b] + rest), s, texts)
    ensures Produces(front + ([b] + rest), s, merged)
  {
    var k, pair, one := |front|, front + [a] + ([b] + rest), front + ([b] + rest);
    merged := Merged(texts, k);
    MergedSpellsTheSame(texts, k);
    forall i | 0 <= i < |one| && !one[i].wildcard
      ensures merged[i] == one[i].s
    {
      MergedAt(texts, k, i);
      assert one[i] == pair[if i < k then i else i + 1];
    }
  }

  lemma ConcatWithEmpty(front: seq<string>, tail: seq<string>)
    ensures Concat(front + ([""] + tail)) == Concat(front + tail)
  {
    ConcatThree(front, [""], tail);
    ConcatAppend(front, tail);
    ConcatSmall("", "");
    assert "" + Concat(tail) == Concat(tail);
  }

  lemma SplitPair(front: seq<Segment>, a: Segment, b: Segment, rest: seq<Segment>, s: string, texts: seq<string>)
    returns (both: seq<string>)
    requires a.wildcard && b.wildcard && Produces(front + ([b] + rest), s, texts)
    ensures Produces(front + [a] + ([b] + rest), s, both)
  {
    var k, one := |front|, front + ([b] + rest);
    both := texts[..k] + ([""] + texts[k..]);
    assert texts == texts[..k] + texts[k..];
    ConcatWithEmpty(texts[..k], texts[k..]);
    var pair := front + [a] + ([b] + rest);
    forall i | 0 <= i < |pair| && !pair[i].wildcard
      ensures both[i] == pair[i].s
    {
      assert pair[i] == one[if i < k then i else i - 1];
    }
  }

  lemma OpenPartMatches(front: seq<Segment>, a: Segment, rest: seq<Segment>, s: string, texts: seq<string>)
    requires Alternating(front + [a]) && a.wildcard && Produces(front + [a] + rest, s, texts)
    ensures Match(front + [a], s).Some?
  {
    var joined := texts[..|front|] + [Concat(texts[|front|..])];
    JoinTexts(front, a, rest, s, texts);
    AlternatingSpells(front + [a], s, joined);
    GreedyIsComplete(front + [a], s, joined);
  }

  lemma AlternatingThroughout(front: seq<Segment>, a: Segment, b: Segment, rest: seq<Segment>)
    requires a.wildcard && b.wildcard && Alternating(front + [a]) && Alternating([b] + rest)
    ensures Alternating(front + ([b] + rest))
  {
    var segs := front + ([b] + rest);
    forall i | 0 <= i < |segs| - 1
      ensures segs[i].wildcard != segs[i + 1].wildcard
    {
      if i < |front| {
        assert (front + [a])[i].wildcard != (front + [a])[i + 1].wildcard;
      } else {
        assert ([b] + rest)[i - |front|].wildcard != ([b] + rest)[i - |front| + 1].wildcard;
      }
    }
  }

  /** Two wildcards in a row make the matcher miss a text that some texts spell exactly when the
      pattern matches without the first of them, but its part from the second on does not match
      what begins with the first occurrence of the second one's name. */
  lemma PairMissesExactly(front: seq<Segment>, a: Segment, b: Segment, rest: seq<Segment>, s: string)
    requires a.wildcard && b.wildcard
    requires Alternating(front + [a]) && Alternating([b] + rest) && Last([b] + rest).wildcard
    ensures var full := front + [a] + ([b] + rest);
            (Match(full, s).None? && exists texts :: Produces(full, s, texts)) <==>
            Match(front + ([b] + rest), s).Some?
            && Match([b] + rest, FromStop(LastCapture(front + [a], s), b.s)).None?
  {
    var full, one := front + [a] + ([b] + rest), front + ([b] + rest);
    AlternatingThroughout(front, a, b, rest);
    assert Last(one) == Last([b] + rest);
    MatchIffProduced(one, s);
    PairSpellsAsOne(front, a, b, rest, s);
    MatchWithPair(front, a, b, rest, s);
    forall texts | Produces(full, s, texts)
      ensures Match(front + [a], s).Some?
    {
      OpenPartMatches(front, a, [b] + rest, s, texts);
    }
  }

  /** At the very end of a pattern a second wildcard in a row loses nothing. */
  lemma PairAtTheEnd(front: seq<Segment>, a: Segment, b: Segment, s: string)
    requires a.wildcard && b.wildcard && Alternating(front + [a])
    ensures Match(front + [a] + [b], s).Some? <==> exists texts :: Produces(front + [a] + [b], s, texts)
  {
    assert [b] + [] == [b];
    MatchWithPair(front, a, b, [], s);
    WildcardAlone([b], FromStop(LastCapture(front + [a], s), b.s));
    if Match(front + [a] + [b], s).Some? {
      MatchIsProduced(front + [a] + [b], s);
    }
    forall texts | Produces(front + [a] + [b], s, texts)
      ensures Match(front + [a], s).Some?
    {
      OpenPartMatches(front, a, [b], s, texts);
    }
  }

  function PairPattern(): seq<Segment> {
    [Segment("a", true), Segment("b", true), Segment("-", false), Segment("c", true)]
  }

  lemma PairPatternRenders()
    ensures Render(PairPattern()) == "{a}{b}-{c}"
  {
    var a, b, lit, c := Segment("a", true), Segment("b", true), Segment("-", false), Segment("c", true);
    assert [c][1..] == [] && [lit, c][1..] == [c] && [b, lit, c][1..] == [lit, c];
    assert [a, b, lit, c][1..] == [b, lit, c];
    assert Render([c]) == "{c}" && Render([lit, c]) == "-{c}";
    assert Render([b, lit, c]) == "{b}-{c}";
  }

  /** The template "{a}{b}-{c}" misses "z-z" although it ends in a wildcard. */
  lemma AdjacentWildcardsWitness()
    ensures Parse("{a}{b}-{c}") == Ok(PairPattern())
    ensures Match(PairPattern(), "z-z") == None
    ensures Produces(PairPattern(), "z-z", ["", "z", "-", "z"])
  {
    PairPatternRenders();
    RenderThenParse(PairPattern());
    PairPatternMisses();
    PairPatternSpells();
  }

  lemma PairPatternSpells()
    ensures Produces(PairPattern(), "z-z", ["", "z", "-", "z"])
  {
    ConcatAppend(["", "z"], ["-", "z"]);
    ConcatSmall("", "z");
    ConcatSmall("-", "z");
    assert ["", "z"] + ["-", "z"] == ["", "z", "-", "z"];
    assert "z" + "-z" == "z-z";
  }

  lemma PairPatternMisses()
    ensures Match(PairPattern(), "z-z") == None
  {
    var segs, s := PairPattern(), "z-z";
    assert forall k :: 0 <= k < 3 ==> s[k..][0] == s[k] != 'b';
    StopIsUnique(s, "b", 3);
    assert s[3..] == "" && StopAt("", "-") == 0;
    assert Match(segs[2..], "") == None;
    assert segs[1..][1..] == segs[2..];
    assert ""[0..] == "";
    assert Match(segs[1..], "") == None;
  }
}
