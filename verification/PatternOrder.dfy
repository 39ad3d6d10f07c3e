/** The priority order on patterns of pkg/pattern/pattern.go. */
module PatternOrder {
  import opened Prelude
  import opened Text
  import opened PatternSyntax
  import opened PatternGreedy

  /** What decides the order when the tests on the whole pattern do not: at the first position
      where both patterns have literals of different lengths the longer literal goes first;
      without such a position the longer pattern does. */
  predicate SegmentsLess(p: seq<Segment>, q: seq<Segment>) {
    if p == [] || q == [] then |p| > |q|
    else if !p[0].wildcard && !q[0].wildcard && |p[0].s| != |q[0].s| then |p[0].s| > |q[0].s|
    else SegmentsLess(p[1..], q[1..])
  }

  predicate Less(p: seq<Segment>, q: seq<Segment>)
    requires p != [] && q != []
  {
    if |p| != |q| && |p| == 1 then true
    else if |p| != |q| && |q| == 1 then false
    else if p[0].wildcard != q[0].wildcard then !p[0].wildcard
    else SegmentsLess(p, q)
  }

  /** Both patterns have a literal at this position, of different lengths. */
  predicate LengthsDiffer(p: seq<Segment>, q: seq<Segment>, i: nat)
    requires i < |p| && i < |q|
  {
    !p[i].wildcard && !q[i].wildcard && |p[i].s| != |q[i].s|
  }

  ghost predicate FirstDifference(p: seq<Segment>, q: seq<Segment>, i: nat) {
    i < |p| && i < |q| && LengthsDiffer(p, q, i) && forall k :: 0 <= k < i ==> !LengthsDiffer(p, q, k)
  }

  /** The priority in plain words: a single segment first, then a literal in front, then the longer
      literal at the first position where literals differ in length, then more segments. */
  ghost predicate GoesFirst(p: seq<Segment>, q: seq<Segment>) {
    p != [] && q != [] &&
    if |p| != |q| && (|p| == 1 || |q| == 1) then |p| == 1
    else if p[0].wildcard != q[0].wildcard then q[0].wildcard
    else
      || (exists i: nat :: FirstDifference(p, q, i) && |p[i].s| > |q[i].s|)
      || ((forall i: nat :: !FirstDifference(p, q, i)) && |p| > |q|)
  }

  lemma {:induction false} SegmentsLessExactly(p: seq<Segment>, q: seq<Segment>, i: nat)
    requires i <= |p| && i <= |q| && forall k :: 0 <= k < i ==> !LengthsDiffer(p, q, k)
    ensures i < |p| && i < |q| && LengthsDiffer(p, q, i) ==> (SegmentsLess(p, q) <==> |p[i].s| > |q[i].s|)
    ensures i == |p| || i == |q| ==> (SegmentsLess(p, q) <==> |p| > |q|)
  {
    if i > 0 {
      assert !LengthsDiffer(p, q, 0);
      forall k | 0 <= k < i - 1
        ensures !LengthsDiffer(p[1..], q[1..], k)
      {
        assert !LengthsDiffer(p, q, k + 1);
      }
      SegmentsLessExactly(p[1..], q[1..], i - 1);
    }
  }

  lemma LessExactly(p: seq<Segment>, q: seq<Segment>)
    requires p != [] && q != []
    ensures Less(p, q) <==> GoesFirst(p, q)
  {
    forall i: nat | FirstDifference(p, q, i)
      ensures SegmentsLess(p, q) <==> |p[i].s| > |q[i].s|
    {
      SegmentsLessExactly(p, q, i);
    }
    if forall i: nat :: !FirstDifference(p, q, i) {
      NoDifference(p, q, if |p| <= |q| then |p| else |q|);
      SegmentsLessExactly(p, q, if |p| <= |q| then |p| else |q|);
    }
  }

  lemma {:induction false} NoDifference(p: seq<Segment>, q: seq<Segment>, n: nat)
    requires n <= |p| && n <= |q| && forall i: nat :: !FirstDifference(p, q, i)
    ensures forall k :: 0 <= k < n ==> !LengthsDiffer(p, q, k)
  {
    if n > 0 {
      NoDifference(p, q, n - 1);
      assert !FirstDifference(p, q, n - 1);
    }
  }

  /** `patternLess`.  It looks at the first segments, so it needs non-empty patterns. */
  method PatternLess(p1: seq<Segment>, p2: seq<Segment>) returns (r: bool)
    requires p1 != [] && p2 != []
    ensures r == Less(p1, p2)
    ensures r <==> GoesFirst(p1, p2)
  {
    LessExactly(p1, p2);
    if |p1| != |p2| {
      if |p1| == 1 {
        return true;
      } else if |p2| == 1 {
        return false;
      }
    }
    if p1[0].wildcard != p2[0].wildcard {
      return p1[0].wildcard == false;
    }
    var i := 0;
    assert p1[0..] == p1 && p2[0..] == p2;
    while i != |p1| && i != |p2|
      invariant 0 <= i <= |p1| && i <= |p2|
      invariant SegmentsLess(p1, p2) == SegmentsLess(p1[i..], p2[i..])
      decreases |p1| - i
    {
      assert p1[i..][1..] == p1[i + 1..] && p2[i..][1..] == p2[i + 1..];
      if p1[i].wildcard == false && p2[i].wildcard == false {
        if |p1[i].s| != |p2[i].s| {
          return |p1[i].s| > |p2[i].s|;
        }
      }
      i := i + 1;
    }
    return |p1| > |p2|;
  }

  // ----- the order on alternating patterns -----

  /** The same rank: the order sees no difference between the two. */
  ghost predicate SameRank(p: seq<Segment>, q: seq<Segment>) {
    && |p| == |q|
    && (forall i :: 0 <= i < |p| ==> p[i].wildcard == q[i].wildcard)
    && (forall i :: 0 <= i < |p| && !p[i].wildcard ==> |p[i].s| == |q[i].s|)
  }

  ghost predicate SameStart(p: seq<Segment>, q: seq<Segment>) {
    p != [] && q != [] ==> p[0].wildcard == q[0].wildcard
  }

  lemma {:induction false} SegmentsTotal(p: seq<Segment>, q: seq<Segment>)
    requires Alternating(p) && Alternating(q) && SameStart(p, q)
    ensures !SegmentsLess(p, q) && !SegmentsLess(q, p) <==> SameRank(p, q)
  {
    if p != [] && q != [] {
      SegmentsTotal(p[1..], q[1..]);
    }
  }

  lemma {:induction false} SegmentsTransitive(p: seq<Segment>, q: seq<Segment>, r: seq<Segment>)
    requires Alternating(p) && Alternating(q) && Alternating(r)
    requires SameStart(p, q) && SameStart(q, r) && SameStart(p, r)
    requires SegmentsLess(p, q) && SegmentsLess(q, r)
    ensures SegmentsLess(p, r)
  {
    if p != [] && q != [] && r != [] {
      if p[0].wildcard || |p[0].s| == |q[0].s| == |r[0].s| {
        SegmentsTransitive(p[1..], q[1..], r[1..]);
      }
    }
  }

  lemma {:induction false} SegmentsAsymmetric(p: seq<Segment>, q: seq<Segment>)
    ensures !(SegmentsLess(p, q) && SegmentsLess(q, p))
  {
    if p != [] && q != [] {
      SegmentsAsymmetric(p[1..], q[1..]);
    }
  }

  /** Irreflexive and asymmetric, whatever the patterns. */
  lemma LessIsAsymmetric(p: seq<Segment>, q: seq<Segment>)
    requires p != [] && q != []
    ensures !Less(p, p)
    ensures Less(p, q) ==> !Less(q, p)
  {
    SegmentsAsymmetric(p, q);
    SegmentsAsymmetric(p, p);
  }

  lemma LessIsTransitive(p: seq<Segment>, q: seq<Segment>, r: seq<Segment>)
    requires p != [] && q != [] && r != []
    requires Alternating(p) && Alternating(q) && Alternating(r)
    requires Less(p, q) && Less(q, r)
    ensures Less(p, r)
  {
    if SameStart(p, q) && SameStart(q, r) && SegmentsLess(p, q) && SegmentsLess(q, r) {
      SegmentsTransitive(p, q, r);
    }
  }

  /** Two alternating patterns are incomparable exactly when they have the same rank. */
  lemma IncomparableIsSameRank(p: seq<Segment>, q: seq<Segment>)
    requires p != [] && q != [] && Alternating(p) && Alternating(q)
    ensures !Less(p, q) && !Less(q, p) <==> SameRank(p, q)
  {
    if p[0].wildcard == q[0].wildcard {
      SegmentsTotal(p, q);
    }
  }

  /** On alternating patterns `patternLess` is a strict weak order. */
  lemma LessIsStrictWeakOrder(p: seq<Segment>, q: seq<Segment>, r: seq<Segment>)
    requires p != [] && q != [] && r != []
    requires Alternating(p) && Alternating(q) && Alternating(r)
    ensures !Less(p, p)
    ensures Less(p, q) && Less(q, r) ==> Less(p, r)
    ensures !Less(p, q) && !Less(q, p) && !Less(q, r) && !Less(r, q) ==> !Less(p, r) && !Less(r, p)
    ensures !Less(q, p) && !Less(r, q) ==> !Less(r, p)
  {
    LessIsAsymmetric(p, p);
    LessIsAsymmetric(p, r);
    IncomparableIsSameRank(p, q);
    IncomparableIsSameRank(q, r);
    IncomparableIsSameRank(p, r);
    if Less(p, q) && Less(q, r) {
      LessIsTransitive(p, q, r);
    }
    if !Less(q, p) && !Less(r, q) && Less(r, p) {
      if Less(p, q) {
        LessIsTransitive(r, p, q);
      } else {
        SameRankKeepsLess(r, p, q);
      }
    }
  }

  /** Patterns of the same rank have the same patterns before them. */
  lemma SameRankKeepsLess(r: seq<Segment>, p: seq<Segment>, q: seq<Segment>)
    requires p != [] && q != [] && r != [] && SameRank(p, q)
    ensures Less(r, p) <==> Less(r, q)
  {
    SameRankKeepsSegments(r, p, q);
  }

  lemma {:induction false} SameRankKeepsSegments(r: seq<Segment>, p: seq<Segment>, q: seq<Segment>)
    requires SameRank(p, q)
    ensures SegmentsLess(r, p) <==> SegmentsLess(r, q)
  {
    if r != [] && p != [] {
      SameRankKeepsSegments(r[1..], p[1..], q[1..]);
    }
  }

  // ----- alternation is what it takes -----

  predicate Incomparable(p: seq<Segment>, q: seq<Segment>)
    requires p != [] && q != []
  {
    !Less(p, q) && !Less(q, p)
  }

  /** A strict weak order on these three, with `p` in each role. */
  predicate OrderedWith(p: seq<Segment>, q: seq<Segment>, r: seq<Segment>)
    requires p != [] && q != [] && r != []
  {
    && (Less(p, q) && Less(q, r) ==> Less(p, r))
    && (Less(q, p) && Less(p, r) ==> Less(q, r))
    && (Less(q, r) && Less(r, p) ==> Less(q, p))
    && (Incomparable(p, q) && Incomparable(q, r) ==> Incomparable(p, r))
    && (Incomparable(q, p) && Incomparable(p, r) ==> Incomparable(q, r))
  }

  /** Two wildcards side by side, the first such pair. */
  lemma AdjacentWildcards(p: seq<Segment>) returns (j: nat)
    requires Canonical(p) && !Alternating(p)
    ensures 0 < j < |p| && p[j].wildcard && p[j - 1].wildcard
    ensures forall k :: 0 <= k < j ==> p[k].wildcard == (if k % 2 == 0 then p[0].wildcard else !p[0].wildcard)
  {
    var i :| 0 <= i < |p| - 1 && p[i].wildcard == p[i + 1].wildcard;
    j := 1;
    while p[j].wildcard != p[j - 1].wildcard
      invariant 0 < j <= i + 1
      invariant forall k :: 0 <= k < j ==> p[k].wildcard == (if k % 2 == 0 then p[0].wildcard else !p[0].wildcard)
      decreases i + 1 - j
    {
      j := j + 1;
    }
  }

  /** An alternating pattern that agrees with `p` wherever both have literals; where `p` has
      none, its literals have length `n` at `j` and 1 elsewhere. */
  function Neighbour(p: seq<Segment>, j: nat, n: nat): (q: seq<Segment>)
    requires p != []
    ensures |q| == |p|
  {
    seq(|p|, k requires 0 <= k < |p| =>
      if (k % 2 == 0) == p[0].wildcard then Segment("n", true)
      else Segment(Repeat('x', if !p[k].wildcard then |p[k].s| else if k == j then n else 1), false))
  }

  lemma NeighbourIsCanonical(p: seq<Segment>, j: nat, n: nat)
    requires p != [] && Canonical(p) && n > 0
    ensures Canonical(Neighbour(p, j, n))
  {
    forall k | 0 <= k < |p|
      ensures WellFormed(Neighbour(p, j, n)[k])
    {
      assert WellFormed(p[k]);
    }
  }

  lemma NeighbourFits(p: seq<Segment>, j: nat, n: nat)
    requires p != []
    ensures Alternating(Neighbour(p, j, n)) && SameStart(p, Neighbour(p, j, n))
    ensures !SegmentsLess(p, Neighbour(p, j, n)) && !SegmentsLess(Neighbour(p, j, n), p)
  {
    SegmentsLessExactly(p, Neighbour(p, j, n), |p|);
    SegmentsLessExactly(Neighbour(p, j, n), p, |p|);
  }

  /** The order is a strict weak order on `p` together with any alternating patterns exactly when
      `p` alternates: next to two wildcards side by side the order overlooks a literal that it
      otherwise sees. */
  lemma AlternationIsExact(p: seq<Segment>)
    requires p != [] && Canonical(p)
    ensures Alternating(p) <==>
            forall q, r :: q != [] && r != [] && Canonical(q) && Canonical(r) && Alternating(q) && Alternating(r) ==>
              OrderedWith(p, q, r)
  {
    if Alternating(p) {
      forall q, r | q != [] && r != [] && Canonical(q) && Canonical(r) && Alternating(q) && Alternating(r)
        ensures OrderedWith(p, q, r)
      {
        LessIsStrictWeakOrder(p, q, r);
        LessIsStrictWeakOrder(q, p, r);
        LessIsStrictWeakOrder(q, r, p);
      }
    } else {
      var j := AdjacentWildcards(p);
      var q, r := Neighbour(p, j, 2), Neighbour(p, j, 1);
      NeighbourIsCanonical(p, j, 2);
      NeighbourIsCanonical(p, j, 1);
      NeighbourFits(p, j, 2);
      NeighbourFits(p, j, 1);
      assert (j % 2 == 0) != p[0].wildcard;
      SegmentsLessExactly(q, r, j);
      assert !OrderedWith(p, q, r);
    }
  }

  /** Without alternation the order has cycles. */
  lemma CycleWitness()
    ensures var k, a, b, c := Segment("k", false), Segment("a", true), Segment("b", true), Segment("c", true);
            var colon, colons, d := Segment(":", false), Segment("::", false), Segment("d", false);
            Less([k, a, colon, c, d], [k, a, b, colon])
            && Less([k, a, b, colon], [k, a, colons])
            && Less([k, a, colons], [k, a, colon, c, d])
  {
    var k, a, b, c := Segment("k", false), Segment("a", true), Segment("b", true), Segment("c", true);
    var colon, colons, d := Segment(":", false), Segment("::", false), Segment("d", false);
    var p, q, r := [colon, c, d], [b, colon], [colons];
    assert p[1..] == [c, d] && q[1..] == [colon] && r[1..] == [];
    assert [c, d][1..] == [d] && [colon][1..] == [];
    assert SegmentsLess([d], []);
    assert SegmentsLess([c, d], [colon]);
    assert SegmentsLess([colon], []);
  }

  // ----- the more specific pattern goes first -----

  /** A choice of texts for some of the wildcards; the empty text leaves a segment alone. */
  ghost predicate Filling(segs: seq<Segment>, picks: seq<string>) {
    && |picks| == |segs|
    && (forall i :: 0 <= i < |segs| && picks[i] != "" ==> segs[i].wildcard && '{' !in picks[i])
  }

  function Fill(segs: seq<Segment>, picks: seq<string>): (r: seq<Segment>)
    requires |picks| == |segs|
  {
    if segs == [] then []
    else [if picks[0] != "" then Segment(picks[0], false) else segs[0]] + Fill(segs[1..], picks[1..])
  }

  lemma {:induction false} FillIsWellFormed(segs: seq<Segment>, picks: seq<string>)
    requires Filling(segs, picks) && forall i :: 0 <= i < |segs| ==> WellFormed(segs[i])
    ensures |Fill(segs, picks)| == |segs|
    ensures forall i :: 0 <= i < |segs| ==> WellFormed(Fill(segs, picks)[i])
  {
    if segs != [] {
      FillIsWellFormed(segs[1..], picks[1..]);
    }
  }

  /** Neighbouring literals become one. */
  function Merge(segs: seq<Segment>): (r: seq<Segment>)
    ensures segs != [] ==> r != [] && r[0].wildcard == segs[0].wildcard
    ensures |r| <= |segs|
  {
    if |segs| <= 1 then segs
    else
      var rest := Merge(segs[1..]);
      if !segs[0].wildcard && !rest[0].wildcard then [Segment(segs[0].s + rest[0].s, false)] + rest[1..]
      else [segs[0]] + rest
  }

  lemma {:induction false} MergeRenders(segs: seq<Segment>)
    ensures Render(Merge(segs)) == Render(segs)
  {
    if |segs| > 1 {
      var rest := Merge(segs[1..]);
      MergeRenders(segs[1..]);
      if !segs[0].wildcard && !rest[0].wildcard {
        var joined := Segment(segs[0].s + rest[0].s, false);
        assert ([joined] + rest[1..])[1..] == rest[1..];
        Assoc(segs[0].s, rest[0].s, Render(rest[1..]));
      } else {
        assert ([segs[0]] + rest)[1..] == rest;
      }
    }
  }

  lemma {:induction false} MergeIsCanonical(segs: seq<Segment>)
    requires forall i :: 0 <= i < |segs| ==> WellFormed(segs[i])
    ensures Canonical(Merge(segs))
  {
    if |segs| > 1 {
      MergeIsCanonical(segs[1..]);
    }
  }

  /** Filling wildcards of a template and parsing the text anew gives the merged list. */
  lemma FilledTextParses(segs: seq<Segment>, picks: seq<string>)
    requires Canonical(segs) && Filling(segs, picks)
    ensures Parse(Render(Fill(segs, picks))) == Ok(Merge(Fill(segs, picks)))
  {
    var filled := Fill(segs, picks);
    FillIsWellFormed(segs, picks);
    MergeRenders(filled);
    MergeIsCanonical(filled);
    RenderThenParse(Merge(filled));
  }

  lemma {:induction false} FilledIsLess(segs: seq<Segment>, picks: seq<string>)
    requires Alternating(segs) && Filling(segs, picks)
    requires segs != [] && picks[0] == "" && exists i :: 0 <= i < |picks| && picks[i] != ""
    ensures SegmentsLess(Merge(Fill(segs, picks)), segs)
  {
    var filled := Fill(segs, picks);
    var rest := Fill(segs[1..], picks[1..]);
    assert filled[1..] == rest && filled[0] == segs[0];
    assert Filling(segs[1..], picks[1..]);
    if segs[0].wildcard || picks[1] == "" {
      var i :| 0 <= i < |picks| && picks[i] != "";
      assert picks[1..][i - 1] != "";
      FilledIsLess(segs[1..], picks[1..]);
      assert ([segs[0]] + Merge(rest))[1..] == Merge(rest);
    } else {
    }
  }

  /** Replacing one or more wildcards of an alternating pattern by texts puts the pattern
      strictly in front. */
  lemma MoreSpecificWins(segs: seq<Segment>, picks: seq<string>)
    requires segs != [] && Canonical(segs) && Alternating(segs) && Filling(segs, picks)
    requires exists i :: 0 <= i < |picks| && picks[i] != ""
    ensures Parse(Render(Fill(segs, picks))).Ok?
    ensures Parse(Render(Fill(segs, picks))).value != []
    ensures Less(Parse(Render(Fill(segs, picks))).value, segs)
  {
    FilledTextParses(segs, picks);
    var p := Merge(Fill(segs, picks));
    if picks[0] == "" {
      FilledIsLess(segs, picks);
    }
  }
}
