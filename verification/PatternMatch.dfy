/** The matcher of pkg/pattern/pattern.go: leftmost, without backtracking. */
module PatternMatch {
  import opened Prelude
  import opened Text
  import opened PatternSyntax

  /** First place in `s` where `text` occurs, or the end of `s`. */
  function StopAt(s: string, text: string): (n: nat)
    ensures n <= |s|
  {
    if s == "" || HasPrefix(s, text) then 0 else StopAt(s[1..], text) + 1
  }

  ghost predicate FirstStop(s: string, text: string, n: nat) {
    && n <= |s|
    && (n < |s| ==> HasPrefix(s[n..], text))
    && (forall k :: 0 <= k < n ==> !HasPrefix(s[k..], text))
  }

  lemma {:induction false} StopAtStops(s: string, text: string)
    ensures FirstStop(s, text, StopAt(s, text))
  {
    if s != "" && !HasPrefix(s, text) {
      StopAtStops(s[1..], text);
      forall k | 0 <= k <= |s|
        ensures k > 0 ==> s[k..] == s[1..][k - 1..]
      {
      }
      assert s[0..] == s;
    } else {
      assert s[0..] == s;
    }
  }

  lemma StopAtIsFirst(s: string, text: string, n: nat)
    requires n <= |s| && HasPrefix(s[n..], text)
    ensures StopAt(s, text) <= n && HasPrefix(s[StopAt(s, text)..], text)
  {
    StopAtStops(s, text);
  }

  lemma StopIsUnique(s: string, text: string, n: nat)
    requires FirstStop(s, text, n)
    ensures StopAt(s, text) == n
  {
    StopAtStops(s, text);
    if n < |s| {
      StopAtIsFirst(s, text, n);
    }
  }

  /** How much of `s` the first segment takes; `None` when its literal is not there. */
  function PieceEnd(segs: seq<Segment>, s: string): (n: Option<nat>)
    requires segs != []
    ensures n.Some? ==> n.value <= |s|
  {
    if !segs[0].wildcard then
      if HasPrefix(s, segs[0].s) then Some(|segs[0].s|) else None
    else if |segs| == 1 then Some(|s|)
    else Some(StopAt(s, segs[1].s))
  }

  /** What the matcher finds: one piece of the text for each segment. */
  function Match(segs: seq<Segment>, s: string): (r: Option<seq<string>>) {
    if segs == [] then
      if s == "" then Some([]) else None
    else
      match PieceEnd(segs, s)
      case None => None
      case Some(n) => InFront([s[..n]], Match(segs[1..], s[n..]))
  }

  function InFront(pieces: seq<string>, r: Option<seq<string>>): Option<seq<string>> {
    if r.None? then None else Some(pieces + r.value)
  }

  /** The parameter map filled from left to right: a later capture overwrites an earlier one. */
  function Captures(segs: seq<Segment>, pieces: seq<string>): map<string, string>
    requires |segs| == |pieces|
  {
    if segs == [] then map[]
    else
      var k := |segs| - 1;
      var m := Captures(segs[..k], pieces[..k]);
      if segs[k].wildcard then m[segs[k].s := pieces[k]] else m
  }

  // ----- the method -----

  /** What the first segments have taken, and where the last of them ended. */
  datatype Taken = Taken(pieces: seq<string>, off: nat)

  /** The matcher after `i` segments; `None` once a literal was not where it arrived. */
  function Take(segs: seq<Segment>, s: string, i: nat): (r: Option<Taken>)
    requires i <= |segs|
    ensures r.Some? ==> |r.value.pieces| == i && r.value.off <= |s|
  {
    if i == 0 then Some(Taken([], 0))
    else
      match Take(segs, s, i - 1)
      case None => None
      case Some(t) =>
        match PieceEnd(segs[i - 1..], s[t.off..])
        case None => None
        case Some(n) => Some(Taken(t.pieces + [s[t.off..t.off + n]], t.off + n))
  }

  lemma {:induction false} StuckForGood(segs: seq<Segment>, s: string, i: nat, j: nat)
    requires i <= j <= |segs| && Take(segs, s, i) == None
    ensures Take(segs, s, j) == None
    decreases j
  {
    if i < j {
      StuckForGood(segs, s, i, j - 1);
    }
  }

  /** Going on after `i` segments is matching the rest of the segments with the rest of the text. */
  lemma {:induction false} TakeThenMatch(segs: seq<Segment>, s: string, i: nat)
    requires i <= |segs|
    ensures Match(segs, s) == match Take(segs, s, i)
                              case None => None
                              case Some(t) => InFront(t.pieces, Match(segs[i..], s[t.off..]))
  {
    if i == 0 {
      assert segs[0..] == segs && s[0..] == s;
      assert Match(segs, s).Some? ==> [] + Match(segs, s).value == Match(segs, s).value;
    } else {
      TakeThenMatch(segs, s, i - 1);
      if Take(segs, s, i).Some? {
        var t, u := Take(segs, s, i - 1).value, Take(segs, s, i).value;
        OnePieceMore(segs, s, i - 1, t, u.off);
      }
    }
  }

  lemma OnePieceMore(segs: seq<Segment>, s: string, i: nat, t: Taken, end: nat)
    requires i < |segs| && t.off <= end <= |s|
    requires PieceEnd(segs[i..], s[t.off..]) == Some(end - t.off)
    ensures InFront(t.pieces, Match(segs[i..], s[t.off..])) ==
            InFront(t.pieces + [s[t.off..end]], Match(segs[i + 1..], s[end..]))
  {
    var left, text, n := segs[i..], s[t.off..], end - t.off;
    assert left[1..] == segs[i + 1..];
    assert text[n..] == s[end..] && text[..n] == s[t.off..end];
    FirstPiece(t.pieces, left, text, n);
  }

  lemma FirstPiece(pieces: seq<string>, segs: seq<Segment>, s: string, n: nat)
    requires segs != [] && PieceEnd(segs, s) == Some(n)
    ensures InFront(pieces, Match(segs, s)) == InFront(pieces + [s[..n]], Match(segs[1..], s[n..]))
  {
    var r := Match(segs[1..], s[n..]);
    if r.Some? {
      Assoc(pieces, [s[..n]], r.value);
    }
  }

  /** The matcher succeeds when all segments have taken their piece and the text is used up. */
  lemma TakeAllIsMatch(segs: seq<Segment>, s: string)
    ensures Match(segs, s) == match Take(segs, s, |segs|)
                              case None => None
                              case Some(t) => if t.off == |s| then Some(t.pieces) else None
  {
    TakeThenMatch(segs, s, |segs|);
    match Take(segs, s, |segs|)
    case None =>
    case Some(t) =>
      assert t.pieces + [] == t.pieces && segs[|segs|..] == [];
  }

  /** The answer for `segs` and `s`: the captures, and success when the text is used up; a nil map
      and failure once a literal is missing. */
  ghost predicate Found(segs: seq<Segment>, s: string, params: Option<map<string, string>>, ok: bool) {
    match Take(segs, s, |segs|)
    case None => params == None && !ok
    case Some(t) => params == Some(Captures(segs, t.pieces)) && (ok <==> t.off == |s|)
  }

  /** The first `i` segments have taken `pieces`, which end at `off`, and left `m`. */
  ghost predicate Walked(segs: seq<Segment>, s: string, i: nat, off: nat, pieces: seq<string>, m: map<string, string>) {
    && i == |pieces| <= |segs|
    && off <= |s|
    && Take(segs, s, i) == Some(Taken(pieces, off))
    && m == Captures(segs[..i], pieces)
  }

  lemma WalkOn(segs: seq<Segment>, s: string, i: nat, off: nat, pieces: seq<string>, m: map<string, string>, end: nat)
    requires Walked(segs, s, i, off, pieces, m) && i < |segs| && off <= end <= |s|
    requires PieceEnd(segs[i..], s[off..]) == Some(end - off)
    ensures Walked(segs, s, i + 1, end, pieces + [s[off..end]],
                   if segs[i].wildcard then m[segs[i].s := s[off..end]] else m)
  {
    var piece := s[off..end];
    assert segs[..i + 1][..i] == segs[..i] && (pieces + [piece])[..i] == pieces;
  }

  lemma WalkStuck(segs: seq<Segment>, s: string, i: nat, off: nat, pieces: seq<string>, m: map<string, string>)
    requires Walked(segs, s, i, off, pieces, m) && i < |segs|
    requires PieceEnd(segs[i..], s[off..]) == None
    ensures Found(segs, s, None, false)
  {
    StuckForGood(segs, s, i + 1, |segs|);
  }

  lemma WalkEnds(segs: seq<Segment>, s: string, off: nat, pieces: seq<string>, m: map<string, string>)
    requires Walked(segs, s, |segs|, off, pieces, m)
    ensures Found(segs, s, Some(m), off == |s|)
  {
    assert segs[..|segs|] == segs;
  }

  lemma WalkLiteral(segs: seq<Segment>, s: string, i: nat, off: nat, pieces: seq<string>, m: map<string, string>)
    requires Walked(segs, s, i, off, pieces, m) && i < |segs| && !segs[i].wildcard
    ensures if HasPrefix(s[off..], segs[i].s) then
              var end := off + |segs[i].s|;
              end <= |s| && Walked(segs, s, i + 1, end, pieces + [s[off..end]], m)
            else Found(segs, s, None, false)
  {
    if HasPrefix(s[off..], segs[i].s) {
      WalkOn(segs, s, i, off, pieces, m, off + |segs[i].s|);
    } else {
      WalkStuck(segs, s, i, off, pieces, m);
    }
  }

  lemma WalkLast(segs: seq<Segment>, s: string, off: nat, pieces: seq<string>, m: map<string, string>)
    requires segs != [] && Walked(segs, s, |segs| - 1, off, pieces, m) && segs[|segs| - 1].wildcard
    ensures Found(segs, s, Some(m[segs[|segs| - 1].s := s[off..]]), true)
  {
    WalkOn(segs, s, |segs| - 1, off, pieces, m, |s|);
    assert s[off..] == s[off..|s|];
    WalkEnds(segs, s, |s|, pieces + [s[off..]], m[segs[|segs| - 1].s := s[off..]]);
  }

  lemma WalkWildcard(segs: seq<Segment>, s: string, i: nat, off: nat, pieces: seq<string>, m: map<string, string>, end: nat)
    requires Walked(segs, s, i, off, pieces, m) && i + 1 < |segs| && segs[i].wildcard
    requires off <= end <= |s| && StopAt(s[off..], segs[i + 1].s) == end - off
    ensures Walked(segs, s, i + 1, end, pieces + [s[off..end]], m[segs[i].s := s[off..end]])
  {
    WalkOn(segs, s, i, off, pieces, m, end);
  }

  /** The inner scan of `matchSegments`: on from `off` to where `text` occurs, or to the end. */
  method ScanTo(s: string, off: nat, text: string) returns (end: nat)
    requires off <= |s|
    ensures off <= end <= |s| && StopAt(s[off..], text) == end - off
  {
    end := off;
    while end < |s| && !HasPrefix(s[end..], text)
      invariant off <= end <= |s|
      invariant forall k :: off <= k < end ==> !HasPrefix(s[k..], text)
    {
      end := end + 1;
    }
    assert forall k :: 0 <= k <= |s| - off ==> s[off..][k..] == s[off + k..];
    StopIsUnique(s[off..], text, end - off);
  }

  /** `matchSegments`. */
  method MatchSegments(segs: seq<Segment>, s: string)
    returns (params: Option<map<string, string>>, ok: bool)
    ensures Found(segs, s, params, ok)
  {
    var m: map<string, string> := map[];
    var off: nat := 0;
    ghost var pieces: seq<string> := [];
    for i := 0 to |segs|
      invariant Walked(segs, s, i, off, pieces, m)
    {
      var seg := segs[i];
      if !seg.wildcard {
        WalkLiteral(segs, s, i, off, pieces, m);
        if !HasPrefix(s[off..], seg.s) {
          return None, false;
        }
        pieces := pieces + [s[off..off + |seg.s|]];
        off := off + |seg.s|;
        continue;
      }
      if i == |segs| - 1 {
        WalkLast(segs, s, off, pieces, m);
        return Some(m[seg.s := s[off..]]), true;
      }
      var nextSeg := segs[i + 1];
      var end := ScanTo(s, off, nextSeg.s);
      WalkWildcard(segs, s, i, off, pieces, m, end);
      m := m[seg.s := s[off..end]];
      pieces := pieces + [s[off..end]];
      off := end;
    }
    WalkEnds(segs, s, off, pieces, m);
    return Some(m), off == |s|;
  }

  // ----- what a match means -----

  /** The text splits along the segments: the pieces make up the text, literals stand for
      themselves, and every wildcard but the last ends at the first place where the text of the
      next segment occurs, or at the end. */
  ghost predicate Split(segs: seq<Segment>, s: string, pieces: seq<string>) {
    && |pieces| == |segs|
    && Concat(pieces) == s
    && (forall i :: 0 <= i < |segs| ==> PieceFits(segs, pieces, i))
  }

  ghost predicate PieceFits(segs: seq<Segment>, pieces: seq<string>, i: nat)
    requires i < |segs| == |pieces|
  {
    if !segs[i].wildcard then pieces[i] == segs[i].s
    else i + 1 < |segs| ==> FirstStop(Concat(pieces[i..]), segs[i + 1].s, |pieces[i]|)
  }

  lemma PieceFitsTail(segs: seq<Segment>, pieces: seq<string>, i: nat)
    requires 0 < i < |segs| == |pieces|
    ensures PieceFits(segs, pieces, i) <==> PieceFits(segs[1..], pieces[1..], i - 1)
  {
    assert pieces[1..][i - 1..] == pieces[i..];
  }

  lemma {:induction false} MatchIsSplit(segs: seq<Segment>, s: string)
    requires Match(segs, s).Some?
    ensures Split(segs, s, Match(segs, s).value)
  {
    if segs != [] {
      var n := PieceEnd(segs, s).value;
      MatchIsSplit(segs[1..], s[n..]);
      var rest := Match(segs[1..], s[n..]).value;
      var pieces := Match(segs, s).value;
      assert pieces == [s[..n]] + rest && pieces[1..] == rest && pieces[0..] == pieces;
      Cut(s, n, n);
      forall i | 0 <= i < |segs|
        ensures PieceFits(segs, pieces, i)
      {
        if i > 0 {
          PieceFitsTail(segs, pieces, i);
        } else if segs[0].wildcard && |segs| > 1 {
          StopAtStops(s, segs[1].s);
        }
      }
    }
  }

  lemma {:induction false} SplitIsMatch(segs: seq<Segment>, s: string, pieces: seq<string>)
    requires Split(segs, s, pieces)
    ensures Match(segs, s) == Some(pieces)
  {
    if segs != [] {
      var n := |pieces[0]|;
      var t := Concat(pieces[1..]);
      assert s == pieces[0] + t && s[n..] == t && s[..n] == pieces[0];
      forall i | 0 <= i < |segs[1..]|
        ensures PieceFits(segs[1..], pieces[1..], i)
      {
        PieceFitsTail(segs, pieces, i + 1);
      }
      SplitIsMatch(segs[1..], t, pieces[1..]);
      FirstPieceEnd(segs, s, pieces);
      HeadTail(pieces);
    }
  }

  lemma FirstPieceEnd(segs: seq<Segment>, s: string, pieces: seq<string>)
    requires Split(segs, s, pieces) && segs != []
    ensures PieceEnd(segs, s) == Some(|pieces[0]|)
  {
    assert PieceFits(segs, pieces, 0) && pieces[0..] == pieces;
    assert s == pieces[0] + Concat(pieces[1..]);
    if segs[0].wildcard {
      if |segs| == 1 {
        assert Concat(pieces[1..]) == "";
      } else {
        StopIsUnique(s, segs[1].s, |pieces[0]|);
      }
    }
  }

  /** The matcher succeeds exactly on the texts that split along the segments, and it returns
      the one and only split. */
  lemma MatchCharacterised(segs: seq<Segment>, s: string)
    ensures Match(segs, s).Some? <==> exists pieces :: Split(segs, s, pieces)
    ensures forall pieces :: Split(segs, s, pieces) <==> Match(segs, s) == Some(pieces)
  {
    forall pieces
      ensures Split(segs, s, pieces) <==> Match(segs, s) == Some(pieces)
    {
      if Split(segs, s, pieces) {
        SplitIsMatch(segs, s, pieces);
      } else if Match(segs, s) == Some(pieces) {
        MatchIsSplit(segs, s);
      }
    }
    if Match(segs, s).Some? {
      MatchIsSplit(segs, s);
    }
  }

  /** A name is captured when some wildcard carries it, and the last such wildcard decides. */
  lemma {:induction false} LastCaptureWins(segs: seq<Segment>, pieces: seq<string>, i: nat)
    requires i < |segs| == |pieces| && segs[i].wildcard
    requires forall j :: i < j < |segs| && segs[j].wildcard ==> segs[j].s != segs[i].s
    ensures segs[i].s in Captures(segs, pieces)
    ensures Captures(segs, pieces)[segs[i].s] == pieces[i]
  {
    var k := |segs| - 1;
    if i < k {
      LastCaptureWins(segs[..k], pieces[..k], i);
    }
  }

  /** Wildcard `i` has the name and took the text. */
  ghost predicate Supplies(segs: seq<Segment>, pieces: seq<string>, i: nat, name: string, text: string) {
    i < |segs| == |pieces| && segs[i].wildcard && segs[i].s == name && pieces[i] == text
  }

  lemma {:induction false} CapturedBy(segs: seq<Segment>, pieces: seq<string>, name: string) returns (i: nat)
    requires |segs| == |pieces| && name in Captures(segs, pieces)
    ensures Supplies(segs, pieces, i, name, Captures(segs, pieces)[name])
  {
    var k := |segs| - 1;
    if segs[k].wildcard && segs[k].s == name {
      i := k;
    } else {
      i := CapturedBy(segs[..k], pieces[..k], name);
    }
  }

  /** Nothing is captured but the pieces of wildcards, under their names. */
  lemma OnlyNamesCaptured(segs: seq<Segment>, pieces: seq<string>)
    requires |segs| == |pieces|
    ensures forall name :: name in Captures(segs, pieces) ==>
              exists i :: Supplies(segs, pieces, i, name, Captures(segs, pieces)[name])
  {
    forall name | name in Captures(segs, pieces)
      ensures exists i :: Supplies(segs, pieces, i, name, Captures(segs, pieces)[name])
    {
      var i := CapturedBy(segs, pieces, name);
    }
  }
}
