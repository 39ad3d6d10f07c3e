/** The template syntax of pkg/pattern/pattern.go: literals and `{name}` wildcards. */
module PatternSyntax {
  import opened Prelude
  import opened Text

  datatype Segment = Segment(s: string, wildcard: bool)

  datatype ParseError = UnmatchedBrace | EmptyName

  type Parsed = Result<seq<Segment>, ParseError>

  /** The text a segment stands for in a template. */
  function RenderOne(seg: Segment): string {
    if seg.wildcard then "{" + seg.s + "}" else seg.s
  }

  function Render(segs: seq<Segment>): string {
    if segs == [] then "" else RenderOne(segs[0]) + Render(segs[1..])
  }

  predicate WellFormed(seg: Segment) {
    seg.s != "" && (if seg.wildcard then '}' else '{') !in seg.s
  }

  /** The segment lists that templates denote: well-formed segments, no two literals in a row. */
  ghost predicate Canonical(segs: seq<Segment>) {
    && (forall i :: 0 <= i < |segs| ==> WellFormed(segs[i]))
    && (forall i :: 0 <= i < |segs| - 1 ==> segs[i].wildcard || segs[i + 1].wildcard)
  }

  /** What `parseSegments` computes, by recursion on the text that is left. */
  function Parse(s: string): Parsed
    decreases |s|
  {
    if s == "" then Ok([])
    else if s[0] != '{' then
      var n := IndexOf(s, '{');
      Prepend([Segment(s[..n], false)], Parse(s[n..]))
    else
      var n := IndexOf(s, '}');
      if n == |s| then Err(UnmatchedBrace)
      else if n == 1 then Err(EmptyName)
      else Prepend([Segment(s[1..n], true)], Parse(s[n + 1..]))
  }

  function Prepend(segs: seq<Segment>, r: Parsed): Parsed {
    if r.Err? then r else Ok(segs + r.value)
  }

  lemma {:induction false} RenderAppend(a: seq<Segment>, b: seq<Segment>)
    ensures Render(a + b) == Render(a) + Render(b)
  {
    if a == [] {
      assert a + b == b;
    } else {
      assert (a + b)[1..] == a[1..] + b;
      RenderAppend(a[1..], b);
    }
  }

  lemma ParseLiteral(lit: string, t: string)
    requires lit != "" && '{' !in lit && (t == "" || t[0] == '{')
    ensures Parse(lit + t) == Prepend([Segment(lit, false)], Parse(t))
  {
    var s := lit + t;
    assert s[..|lit|] == lit && s[|lit|..] == t;
    assert s[0] in lit;
    IndexOfUnique(s, '{', |lit|);
  }

  lemma ParseWildcard(name: string, t: string)
    requires name != "" && '}' !in name
    ensures Parse("{" + name + "}" + t) == Prepend([Segment(name, true)], Parse(t))
  {
    var s := "{" + name + "}" + t;
    assert s[..|name| + 1] == "{" + name;
    assert s[1..|name| + 1] == name && s[|name| + 2..] == t;
    IndexOfUnique(s, '}', |name| + 1);
  }

  /** A text that does not fail at once starts with a segment, and parsing goes on behind it. */
  lemma ParseFront(s: string) returns (seg: Segment, t: string)
    requires s != ""
    requires s[0] == '{' ==> 1 < IndexOf(s, '}') < |s|
    ensures WellFormed(seg) && s == RenderOne(seg) + t && |t| < |s|
    ensures !seg.wildcard ==> t == "" || t[0] == '{'
    ensures Parse(s) == Prepend([seg], Parse(t))
  {
    if s[0] != '{' {
      var n := IndexOf(s, '{');
      seg, t := Segment(s[..n], false), s[n..];
    } else {
      var n := IndexOf(s, '}');
      seg, t := Segment(s[1..n], true), s[n + 1..];
      assert s[1..n] == s[..n][1..];
      assert s == "{" + s[1..n] + "}" + s[n + 1..];
    }
  }

  lemma RenderSnoc(segs: seq<Segment>, seg: Segment)
    ensures Render(segs + [seg]) == Render(segs) + RenderOne(seg)
  {
    RenderAppend(segs, [seg]);
    assert RenderOne(seg) + "" == RenderOne(seg);
  }

  /** Parsing loses nothing: a parsed template is canonical and prints as the template itself. */
  lemma {:induction false} ParseThenRender(s: string)
    requires Parse(s).Ok?
    ensures Canonical(Parse(s).value)
    ensures Render(Parse(s).value) == s
    decreases |s|
  {
    if s != "" {
      var seg, t := ParseFront(s);
      ParseThenRender(t);
      SegmentInFront(seg, Parse(t).value, t);
    }
  }

  lemma SegmentInFront(seg: Segment, rest: seq<Segment>, t: string)
    requires WellFormed(seg) && Canonical(rest) && Render(rest) == t
    requires !seg.wildcard ==> t == "" || t[0] == '{'
    ensures Canonical([seg] + rest) && Render([seg] + rest) == RenderOne(seg) + t
  {
    assert ([seg] + rest)[1..] == rest;
    if rest != [] && !seg.wildcard {
      RenderFront(rest);
    }
  }

  /** The first character tells a wildcard from a literal. */
  lemma RenderFront(segs: seq<Segment>)
    requires segs != [] && Canonical(segs)
    ensures Render(segs) != ""
    ensures segs[0].wildcard <==> Render(segs)[0] == '{'
  {
    assert !segs[0].wildcard ==> segs[0].s[0] in segs[0].s;
  }

  /** Behind a canonical beginning, parsing goes on as if the rest stood alone. */
  lemma {:induction false} CanonicalBeginning(segs: seq<Segment>, tail: string)
    requires Canonical(segs)
    requires tail == "" || tail[0] == '{' || segs == [] || segs[|segs| - 1].wildcard
    ensures Parse(Render(segs) + tail) == Prepend(segs, Parse(tail))
  {
    if segs == [] {
      assert Render(segs) + tail == tail;
      assert Parse(tail).Ok? ==> segs + Parse(tail).value == Parse(tail).value;
    } else {
      var seg, rest := segs[0], segs[1..];
      var t := Render(rest) + tail;
      CanonicalBeginning(rest, tail);
      if rest != [] {
        RenderFront(rest);
        assert t[0] == Render(rest)[0];
      }
      if seg.wildcard {
        ParseWildcard(seg.s, t);
      } else {
        ParseLiteral(seg.s, t);
      }
      Assoc(RenderOne(seg), Render(rest), tail);
      HeadTail(segs);
      if Parse(tail).Ok? {
        Assoc([seg], rest, Parse(tail).value);
      }
    }
  }

  /** Printing loses nothing: the text of a canonical list parses back to that list. */
  lemma RenderThenParse(segs: seq<Segment>)
    requires Canonical(segs)
    ensures Parse(Render(segs)) == Ok(segs)
  {
    CanonicalBeginning(segs, "");
    assert Render(segs) + "" == Render(segs) && segs + [] == segs;
  }

  lemma ParseBadBrace(tail: string, n: nat)
    requires 0 < n <= |tail| && tail[0] == '{' && (forall i :: 0 <= i < n ==> tail[i] != '}')
    requires n == |tail| || (n == 1 && tail[1] == '}')
    ensures Parse(tail) == Err(if n == |tail| then UnmatchedBrace else EmptyName)
  {
    IndexOfUnique(tail, '}', n);
  }

  /** The text up to `off` has been cut into `segs`. */
  ghost predicate Scanned(s: string, off: nat, segs: seq<Segment>) {
    off <= |s| && Canonical(segs) && Render(segs) == s[..off]
  }

  ghost predicate OpenEnded(segs: seq<Segment>) {
    segs == [] || segs[|segs| - 1].wildcard
  }

  lemma CanonicalSnoc(segs: seq<Segment>, seg: Segment)
    requires Canonical(segs) && WellFormed(seg) && (seg.wildcard || OpenEnded(segs))
    ensures Canonical(segs + [seg])
  {
  }

  lemma ScanLiteral(s: string, start: nat, off: nat, segs: seq<Segment>)
    requires Scanned(s, start, segs) && OpenEnded(segs)
    requires start < off <= |s| && forall i :: start <= i < off ==> s[i] != '{'
    ensures Scanned(s, off, segs + [Segment(s[start..off], false)])
  {
    var seg := Segment(s[start..off], false);
    assert '{' !in seg.s;
    CanonicalSnoc(segs, seg);
    RenderSnoc(segs, seg);
    Cut(s, start, off);
  }

  lemma ScanWildcard(s: string, start: nat, off: nat, segs: seq<Segment>)
    requires Scanned(s, start, segs)
    requires start + 1 < off < |s| && s[start] == '{' && s[off] == '}'
    requires forall i :: start <= i < off ==> s[i] != '}'
    ensures Scanned(s, off + 1, segs + [Segment(s[start + 1..off], true)])
  {
    var seg := Segment(s[start + 1..off], true);
    assert '}' !in seg.s;
    CanonicalSnoc(segs, seg);
    RenderSnoc(segs, seg);
    Cut(s, start, off + 1);
    SliceBetweenBraces(s, start, off);
  }

  lemma SliceBetweenBraces(s: string, start: nat, off: nat)
    requires start + 1 < off < |s| && s[start] == '{' && s[off] == '}'
    ensures s[start..off + 1] == "{" + s[start + 1..off] + "}"
  {
  }

  lemma ScanFails(s: string, start: nat, off: nat, segs: seq<Segment>)
    requires Scanned(s, start, segs)
    requires start < off <= |s| && s[start] == '{' && forall i :: start <= i < off ==> s[i] != '}'
    requires off == |s| || (off == start + 1 && s[off] == '}')
    ensures Parse(s) == Err(if off == |s| then UnmatchedBrace else EmptyName)
  {
    var tail := s[start..];
    ParseBadBrace(tail, off - start);
    CanonicalBeginning(segs, tail);
    Cut(s, start, off);
  }

  lemma ScanEnds(s: string, segs: seq<Segment>)
    requires Scanned(s, |s|, segs)
    ensures Parse(s) == Ok(segs)
  {
    RenderThenParse(segs);
    assert s[..|s|] == s;
  }

  /** `parseSegments`: two index scans per round, one for the literal and one for the wildcard. */
  method ParseSegments(s: string) returns (r: Parsed)
    ensures r == Parse(s)
  {
    var segs: seq<Segment> := [];
    var off := 0;
    while off < |s|
      invariant Scanned(s, off, segs)
      invariant off == |s| || OpenEnded(segs)
    {
      var start := off;
      while off < |s| && s[off] != '{'
        invariant start <= off <= |s|
        invariant forall i :: start <= i < off ==> s[i] != '{'
      {
        off := off + 1;
      }
      if off > start {
        ScanLiteral(s, start, off, segs);
        segs := segs + [Segment(s[start..off], false)];
      }
      if off == |s| {
        break;
      }
      start := off;
      while off < |s| && s[off] != '}'
        invariant start <= off <= |s|
        invariant forall i :: start <= i < off ==> s[i] != '}'
      {
        off := off + 1;
      }
      if off == |s| {
        ScanFails(s, start, off, segs);
        return Err(UnmatchedBrace);
      }
      if off == start + 1 {
        ScanFails(s, start, off, segs);
        return Err(EmptyName);
      }
      ScanWildcard(s, start, off, segs);
      segs := segs + [Segment(s[start + 1..off], true)];
      off := off + 1;
    }
    ScanEnds(s, segs);
    r := Ok(segs);
  }

  /** Parsing fails exactly on the texts that no canonical list prints as. */
  lemma ParseFailsExactly(s: string)
    ensures Parse(s).Err? <==> forall segs :: Canonical(segs) ==> Render(segs) != s
  {
    if Parse(s).Ok? {
      ParseThenRender(s);
    } else {
      forall segs | Canonical(segs)
        ensures Render(segs) != s
      {
        RenderThenParse(segs);
      }
    }
  }

  /** Which error: the text is a canonical beginning followed by an opening brace that is
      never closed, or by an empty pair of braces. */
  lemma {:induction false} ParseErrorMeans(s: string) returns (segs: seq<Segment>, tail: string)
    requires Parse(s).Err?
    ensures Canonical(segs) && s == Render(segs) + tail
    ensures tail != "" && tail[0] == '{'
    ensures if Parse(s).error == UnmatchedBrace then '}' !in tail else HasPrefix(tail, "{}")
    decreases |s|
  {
    if s[0] == '{' && !(1 < IndexOf(s, '}') < |s|) {
      segs, tail := [], s;
      var n := IndexOf(s, '}');
      assert s[..n] == if n == |s| then s else "{";
    } else {
      var seg, t := ParseFront(s);
      var rest;
      rest, tail := ParseErrorMeans(t);
      segs := PutInFront(seg, rest, tail, t);
    }
  }

  lemma PutInFront(seg: Segment, rest: seq<Segment>, tail: string, t: string) returns (segs: seq<Segment>)
    requires WellFormed(seg) && Canonical(rest) && t == Render(rest) + tail
    requires !seg.wildcard ==> t == "" || t[0] == '{'
    ensures Canonical(segs) && RenderOne(seg) + t == Render(segs) + tail
  {
    segs := [seg] + rest;
    assert segs[1..] == rest;
    if rest != [] {
      RenderFront(rest);
      assert t[0] == Render(rest)[0];
    }
    assert Render(segs) + tail == RenderOne(seg) + (Render(rest) + tail);
  }

  /** `parsePattern`: a pattern without a colon gets the tag `latest`. */
  function WithDefaultTag(s: string): string {
    if ':' in s then s else s + ":latest"
  }

  method ParsePattern(s: string) returns (r: Parsed)
    ensures r == Parse(WithDefaultTag(s))
    ensures ':' in s ==> r == Parse(s)
    ensures ':' !in s ==> r == Parse(s + ":latest")
  {
    var text := s;
    if ':' !in text {
      text := text + ":latest";
    }
    r := ParseSegments(text);
  }

  /** A parsed pattern always has a first segment, which the priority order looks at. */
  lemma ParsedPatternNotEmpty(s: string)
    requires Parse(WithDefaultTag(s)).Ok?
    ensures Parse(WithDefaultTag(s)).value != []
  {
    ParseThenRender(WithDefaultTag(s));
    assert WithDefaultTag(s) != "";
  }
}
