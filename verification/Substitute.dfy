/** Placeholder substitution of pkg/pattern/action.go: one `strings.ReplaceAll` per parameter,
    in the arbitrary order in which Go walks a map. */
module Substitute {
  import opened Text

  /** `strings.ReplaceAll` for a non-empty `what`. */
  function ReplaceAll(s: string, what: string, text: string): string
    requires what != ""
    decreases |s|
  {
    if s == "" then ""
    else if HasPrefix(s, what) then text + ReplaceAll(s[|what|..], what, text)
    else [s[0]] + ReplaceAll(s[1..], what, text)
  }

  function Placeholder(name: string): string {
    "{" + name + "}"
  }

  /** Every key of the map, once each. */
  ghost predicate Enumerates(order: seq<string>, params: map<string, string>) {
    && (forall i, j :: 0 <= i < j < |order| ==> order[i] != order[j])
    && (forall k :: k in order <==> k in params)
  }

  /** The replacements in one particular order. */
  function ReplaceEach(s: string, order: seq<string>, params: map<string, string>): string
    requires forall k :: k in order ==> k in params
  {
    if order == [] then s
    else
      var n := |order| - 1;
      ReplaceAll(ReplaceEach(s, order[..n], params), Placeholder(order[n]), params[order[n]])
  }

  /** `replaceWithParams`. */
  method ReplaceWithParams(s: string, params: map<string, string>) returns (r: string)
    ensures exists order :: Enumerates(order, params) && r == ReplaceEach(s, order, params)
    ensures Flat(s) && Plain(params) ==> r == Subst(s, params)
  {
    r := s;
    var left := params.Keys;
    ghost var order: seq<string> := [];
    while left != {}
      invariant left <= params.Keys
      invariant forall i, j :: 0 <= i < j < |order| ==> order[i] != order[j]
      invariant forall k :: k in order <==> k in params && k !in left
      invariant r == ReplaceEach(s, order, params)
      decreases |left|
    {
      var k :| k in left;
      r := ReplaceAll(r, Placeholder(k), params[k]);
      left := left - {k};
      assert (order + [k])[..|order|] == order;
      order := order + [k];
    }
    assert Enumerates(order, params);
    if Flat(s) && Plain(params) {
      ReplaceEachIsSubst(s, order, params);
    }
  }

  // ----- the meaning: all placeholders at once -----

  /** Every known placeholder replaced, everything else kept. */
  function Subst(s: string, params: map<string, string>): string
    decreases |s|
  {
    if s == "" then ""
    else if s[0] != '{' then [s[0]] + Subst(s[1..], params)
    else
      var n := IndexOf(s, '}');
      if n == |s| then s
      else Meaning(s[1..n], params) + Subst(s[n + 1..], params)
  }

  function Meaning(name: string, params: map<string, string>): string {
    if name in params then params[name] else Placeholder(name)
  }

  /** A name with no opening brace in front of its last character.  An opening brace at the very
      end makes an empty pair with the closing one, and no parameter has the empty name. */
  predicate Unnested(name: string) {
    name == "" || '{' !in name[..|name| - 1]
  }

  /** Every closed pair of braces is one placeholder, with no second one inside. */
  predicate Flat(s: string)
    decreases |s|
  {
    if s == "" then true
    else if s[0] != '{' then Flat(s[1..])
    else
      var n := IndexOf(s, '}');
      n == |s| || (Unnested(s[1..n]) && Flat(s[n + 1..]))
  }

  /** Names are not empty and close no brace, and values open none. */
  predicate Plain(params: map<string, string>) {
    forall k :: k in params ==> PlainName(k) && '{' !in params[k]
  }

  predicate PlainName(k: string) {
    k != "" && '}' !in k
  }

  /** A text that starts with a closed placeholder, cut behind it. */
  lemma SplitFront(s: string) returns (name: string, t: string)
    requires s != "" && s[0] == '{' && IndexOf(s, '}') < |s|
    ensures s == Placeholder(name) + t && '}' !in name && |t| < |s|
    ensures name == s[1..IndexOf(s, '}')] && t == s[IndexOf(s, '}') + 1..]
  {
    var n := IndexOf(s, '}');
    name, t := s[1..n], s[n + 1..];
    assert s[1..n] == s[..n][1..];
    assert s == "{" + s[1..n] + "}" + s[n + 1..];
  }

  lemma PlaceholderFront(name: string, t: string)
    requires '}' !in name
    ensures var s := Placeholder(name) + t;
            IndexOf(s, '}') == |name| + 1 && s[1..|name| + 1] == name && s[|name| + 2..] == t && s[0] == '{'
  {
    var s := Placeholder(name) + t;
    assert s[..|name| + 1] == "{" + name;
    IndexOfUnique(s, '}', |name| + 1);
  }

  /** Plain text in front stays in front, for substitution and for single replacements. */
  lemma {:induction false} PlainFront(a: string, t: string, params: map<string, string>)
    requires '{' !in a
    ensures Subst(a + t, params) == a + Subst(t, params)
    ensures Flat(a + t) == Flat(t)
  {
    if a == "" {
      assert a + t == t;
    } else {
      assert a[0] in a;
      assert (a + t)[1..] == a[1..] + t;
      PlainFront(a[1..], t, params);
      Assoc([a[0]], a[1..], Subst(t, params));
      HeadTail(a);
    }
  }

  lemma {:induction false} ReplaceBehindPlain(a: string, t: string, name: string, text: string)
    requires '{' !in a
    ensures ReplaceAll(a + t, Placeholder(name), text) == a + ReplaceAll(t, Placeholder(name), text)
  {
    if a == "" {
      assert a + t == t;
    } else {
      assert a[0] in a;
      assert (a + t)[1..] == a[1..] + t;
      ReplaceBehindPlain(a[1..], t, name, text);
      Assoc([a[0]], a[1..], ReplaceAll(t, Placeholder(name), text));
      HeadTail(a);
    }
  }

  lemma {:induction false} ReplaceNothing(s: string, what: string, text: string)
    requires what != "" && exists c :: c in what && c !in s
    ensures ReplaceAll(s, what, text) == s
    decreases |s|
  {
    if s != "" {
      assert !HasPrefix(s, what) by {
        var c :| c in what && c !in s;
        assert HasPrefix(s, what) ==> forall x :: x in what ==> x in s;
      }
      ReplaceNothing(s[1..], what, text);
      HeadTail(s);
    }
  }

  lemma SubstPlaceholder(name: string, t: string, params: map<string, string>)
    requires '}' !in name
    ensures Subst(Placeholder(name) + t, params) == Meaning(name, params) + Subst(t, params)
    ensures Flat(Placeholder(name) + t) <==> Unnested(name) && Flat(t)
  {
    PlaceholderFront(name, t);
  }

  lemma PlaceholdersDiffer(name: string, t: string, k: string)
    requires '}' !in name && '}' !in k
    ensures HasPrefix(Placeholder(name) + t, Placeholder(k)) <==> name == k
  {
    var s := Placeholder(name) + t;
    PlaceholderFront(name, t);
    if HasPrefix(s, Placeholder(k)) {
      var u := s[|Placeholder(k)|..];
      assert s == Placeholder(k) + u;
      PlaceholderFront(k, u);
    }
  }

  lemma ReplaceBehindInnerBrace(u: string, t: string, k: string, text: string)
    requires '{' !in u && PlainName(k)
    ensures ReplaceAll(u + ("{}" + t), Placeholder(k), text) == u + ("{}" + ReplaceAll(t, Placeholder(k), text))
  {
    ReplaceBehindPlain(u, "{}" + t, k, text);
    ReplaceEmptyPair(t, k, text);
  }

  lemma InnerBraceShape(u: string, t: string)
    ensures u + "{" + "}" + t == u + ("{}" + t)
  {
    assert u + "{" + "}" == u + "{}";
    Assoc(u, "{}", t);
  }

  /** A single replacement passes over the inside of a placeholder. */
  lemma ReplaceBehindName(name: string, t: string, k: string, text: string)
    requires '}' !in name && Unnested(name) && PlainName(k)
    ensures ReplaceAll(name + "}" + t, Placeholder(k), text) == name + "}" + ReplaceAll(t, Placeholder(k), text)
  {
    if '{' !in name {
      ReplaceBehindPlain(name + "}", t, k, text);
    } else {
      var u := name[..|name| - 1];
      assert name == u + "{";
      ReplaceBehindInnerBrace(u, t, k, text);
      InnerBraceShape(u, t);
      InnerBraceShape(u, ReplaceAll(t, Placeholder(k), text));
    }
  }

  /** No parameter replaces an empty pair. */
  lemma ReplaceEmptyPair(t: string, k: string, text: string)
    requires PlainName(k)
    ensures ReplaceAll("{}" + t, Placeholder(k), text) == "{}" + ReplaceAll(t, Placeholder(k), text)
  {
    var s, what := "{}" + t, Placeholder(k);
    assert what[1] == k[0] && k[0] in k;
    assert s[1..] == "}" + t && s[1..][1..] == t;
    assert ReplaceAll(s, what, text) == ['{'] + ReplaceAll(s[1..], what, text);
    assert ReplaceAll(s[1..], what, text) == ['}'] + ReplaceAll(t, what, text);
  }

  /** A single replacement passes over a placeholder of another name. */
  lemma ReplaceAtPlaceholder(name: string, t: string, k: string, text: string)
    requires '}' !in name && Unnested(name) && PlainName(k)
    ensures ReplaceAll(Placeholder(name) + t, Placeholder(k), text) ==
            Meaning(name, map[k := text]) + ReplaceAll(t, Placeholder(k), text)
  {
    var s, what := Placeholder(name) + t, Placeholder(k);
    if name == k {
      assert s[|what|..] == t;
    } else {
      PlaceholdersDiffer(name, t, k);
      assert s[1..] == name + "}" + t;
      ReplaceBehindName(name, t, k, text);
      Assoc("{", name + "}", ReplaceAll(t, what, text));
      assert "{" + (name + "}") == Placeholder(name);
    }
  }

  /** On a flat template one replacement is one simultaneous substitution. */
  lemma {:induction false} ReplaceIsSubst(s: string, k: string, text: string)
    requires Flat(s) && PlainName(k)
    ensures ReplaceAll(s, Placeholder(k), text) == Subst(s, map[k := text])
    decreases |s|
  {
    if s != "" {
      if s[0] != '{' {
        ReplaceIsSubst(s[1..], k, text);
      } else if IndexOf(s, '}') == |s| {
        assert s[..|s|] == s && '}' in Placeholder(k);
        ReplaceNothing(s, Placeholder(k), text);
      } else {
        var name, t := SplitFront(s);
        ReplaceIsSubst(t, k, text);
        ReplaceAtPlaceholder(name, t, k, text);
      }
    }
  }

  /** Substituting twice is substituting once, the first map winning; and templates stay flat. */
  lemma {:induction false} SubstTwice(s: string, first: map<string, string>, second: map<string, string>)
    requires Flat(s) && forall k :: k in first ==> '{' !in first[k]
    ensures Flat(Subst(s, first))
    ensures Subst(Subst(s, first), second) == Subst(s, second + first)
    decreases |s|
  {
    if s != "" {
      if s[0] != '{' {
        var t := Subst(s[1..], first);
        SubstTwice(s[1..], first, second);
        PlainFront([s[0]], t, second);
      } else if IndexOf(s, '}') < |s| {
        var name, t := SplitFront(s);
        SubstTwice(t, first, second);
        if name in first {
          PlainFront(first[name], Subst(t, first), second);
        } else {
          SubstPlaceholder(name, Subst(t, first), second);
        }
      }
    }
  }

  lemma {:induction false} SubstNothing(s: string)
    ensures Subst(s, map[]) == s
    decreases |s|
  {
    if s != "" {
      if s[0] != '{' {
        SubstNothing(s[1..]);
      } else if IndexOf(s, '}') < |s| {
        var name, t := SplitFront(s);
        SubstNothing(t);
      }
    }
  }

  /** The part of the parameters that an order has come to. */
  function Part(order: seq<string>, params: map<string, string>): map<string, string>
    requires forall k :: k in order ==> k in params
  {
    map k | k in order :: params[k]
  }

  lemma {:induction false} ReplacePrefixIsSubst(s: string, order: seq<string>, params: map<string, string>)
    requires Flat(s) && Plain(params) && forall k :: k in order ==> k in params
    ensures ReplaceEach(s, order, params) == Subst(s, Part(order, params))
  {
    if order == [] {
      SubstNothing(s);
      assert Part(order, params) == map[];
    } else {
      var n := |order| - 1;
      var k, before := order[n], order[..n];
      var m := Part(before, params);
      assert order == before + [k];
      ReplacePrefixIsSubst(s, before, params);
      SubstTwice(s, m, map[k := params[k]]);
      ReplaceIsSubst(Subst(s, m), k, params[k]);
      assert map[k := params[k]] + m == Part(order, params);
    }
  }

  lemma ReplaceEachIsSubst(s: string, order: seq<string>, params: map<string, string>)
    requires Flat(s) && Plain(params) && Enumerates(order, params)
    ensures ReplaceEach(s, order, params) == Subst(s, params)
  {
    ReplacePrefixIsSubst(s, order, params);
    assert Part(order, params) == params;
  }

  // ----- templates with nested placeholders -----

  /** The text before, and the plain text behind, the last opening brace. */
  lemma {:induction false} LastBrace(s: string) returns (a: string, x: string)
    requires '{' in s
    ensures s == a + "{" + x && '{' !in x
  {
    var n := |s| - 1;
    if s[n] == '{' {
      a, x := s[..n], "";
      assert s == a + "{" + "";
    } else {
      a, x := LastBrace(s[..n]);
      x := x + [s[n]];
      assert s == s[..n] + [s[n]];
      assert a + "{" + x == s;
    }
  }

  lemma BehindFront(front: string, a: string, x: string, y: string, b: string)
    ensures front + (a + ("{" + x) + (Placeholder(y) + b)) == front + a + ("{" + x) + (Placeholder(y) + b)
  {
  }

  lemma InnermostShape(name: string, a: string, x: string, y: string, b: string)
    requires "{" + name == a + ("{" + x) + ("{" + y)
    ensures Placeholder(name) + b == a + ("{" + x) + (Placeholder(y) + b)
  {
    assert Placeholder(name) + b == ("{" + name) + ("}" + b);
    assert ("{" + y) + ("}" + b) == Placeholder(y) + b;
    Assoc(a + ("{" + x), "{" + y, "}" + b);
  }

  /** A template that is not flat has an opening brace in front of a closed placeholder that is
      not empty. */
  lemma {:induction false} NotFlat(s: string) returns (a: string, x: string, y: string, b: string)
    requires !Flat(s)
    ensures s == a + ("{" + x) + (Placeholder(y) + b)
    ensures '{' !in x && '}' !in x && PlainName(y) && Unnested(y)
    decreases |s|
  {
    var front, t;
    if s[0] != '{' {
      front, t := [s[0]], s[1..];
      HeadTail(s);
    } else {
      var name;
      name, t := SplitFront(s);
      front := Placeholder(name);
      if !Unnested(name) {
        a, x, y := NestedHere(name);
        b := t;
        InnermostShape(name, a, x, y, b);
        return;
      }
    }
    a, x, y, b := NotFlat(t);
    BehindFront(front, a, x, y, b);
    a := front + a;
  }

  /** The last two opening braces in front of a closing one, not counting one right in front of it. */
  lemma NestedHere(name: string) returns (a: string, x: string, y: string)
    requires !Unnested(name) && '}' !in name
    ensures "{" + name == a + ("{" + x) + ("{" + y)
    ensures '{' !in x && '}' !in x && PlainName(y) && Unnested(y)
  {
    var n := |name| - 1;
    var front, inner := LastBrace(name[..n]);
    a, x := LastBrace("{" + front);
    y := inner + [name[n]];
    assert y[..|y| - 1] == inner;
    assert name == name[..n] + [name[n]] == front + "{" + y;
    BraceFree(name, front, a, x, y);
    assert "{" + name == ("{" + front) + ("{" + y);
  }

  lemma BraceFree(name: string, front: string, a: string, x: string, y: string)
    requires '}' !in name && name == front + "{" + y && "{" + front == a + "{" + x
    ensures '}' !in x && '}' !in y
  {
    assert forall c :: c in y ==> c in name;
    assert forall c :: c in x ==> c in a + "{" + x;
    assert forall c :: c in "{" + front ==> c == '{' || c in front;
    assert forall c :: c in front ==> c in name;
  }

  /** What starts an opening brace that is not closed at once. */
  predicate OpensPair(b: string) {
    b != "" && b[0] == '{' && (|b| > 1 ==> b[1] != '}')
  }

  lemma InsideName(name: string, i: nat)
    requires Unnested(name) && 0 < i < |name|
    ensures Placeholder(name)[i] != '{'
  {
    assert name[..|name| - 1][i - 1] == name[i - 1];
  }

  lemma NoStraddling(a: string, b: string, name: string)
    requires Unnested(name) && OpensPair(b) && a != ""
    ensures HasPrefix(a + b, Placeholder(name)) <==> HasPrefix(a, Placeholder(name))
  {
    var s, what, i := a + b, Placeholder(name), |a|;
    if i < |what| <= |s| {
      assert s[i] == '{';
      if i < |name| {
        InsideName(name, i);
      } else if i == |name| {
        assert what[i + 1] == '}' && s[i + 1] == b[1];
      }
    }
  }

  /** A replacement never straddles an opening brace that is not closed at once. */
  lemma {:induction false} ReplaceSplits(a: string, b: string, name: string, text: string)
    requires Unnested(name) && OpensPair(b)
    ensures ReplaceAll(a + b, Placeholder(name), text) ==
            ReplaceAll(a, Placeholder(name), text) + ReplaceAll(b, Placeholder(name), text)
    decreases |a|
  {
    var s, what := a + b, Placeholder(name);
    if a == "" {
      assert s == b;
      return;
    }
    NoStraddling(a, b, name);
    if HasPrefix(s, what) {
      assert s[|what|..] == a[|what|..] + b;
      ReplaceSplits(a[|what|..], b, name, text);
      Assoc(text, ReplaceAll(a[|what|..], what, text), ReplaceAll(b, what, text));
    } else {
      assert s[1..] == a[1..] + b;
      ReplaceSplits(a[1..], b, name, text);
      Assoc([a[0]], ReplaceAll(a[1..], what, text), ReplaceAll(b, what, text));
    }
  }

  lemma {:induction false} DeletingShortens(s: string, what: string)
    requires what != ""
    ensures |ReplaceAll(s, what, "")| <= |s|
    decreases |s|
  {
    if s != "" {
      if HasPrefix(s, what) {
        DeletingShortens(s[|what|..], what);
      } else {
        DeletingShortens(s[1..], what);
      }
    }
  }

  lemma {:induction false} DeletingAnOccurrence(a: string, what: string, b: string)
    requires what != ""
    ensures |ReplaceAll(a + what + b, what, "")| < |a + what + b|
    decreases |a|
  {
    var s := a + what + b;
    assert a == "" ==> s[..|what|] == what;
    if HasPrefix(s, what) {
      DeletingShortens(s[|what|..], what);
    } else {
      assert s[1..] == a[1..] + what + b;
      DeletingAnOccurrence(a[1..], what, b);
    }
  }

  lemma {:induction false} TooLongToOccur(s: string, what: string, text: string)
    requires |what| > |s|
    ensures ReplaceAll(s, what, text) == s
    decreases |s|
  {
    if s != "" {
      TooLongToOccur(s[1..], what, text);
      HeadTail(s);
    }
  }

  /** Filling the inner placeholder of a nested pair can complete an outer one. */
  lemma InnerFirst(a: string, x: string, y: string, b: string, v: string)
    requires '{' !in x && '}' !in x && PlainName(y) && Unnested(y)
    ensures ReplaceAll(a + ("{" + x) + (Placeholder(y) + b), Placeholder(y), v) ==
            ReplaceAll(a, Placeholder(y), v) + ("{" + x) + (v + ReplaceAll(b, Placeholder(y), v))
  {
    var open, inner, what := "{" + x, Placeholder(y) + b, Placeholder(y);
    assert inner[1] == y[0] && y[0] in y;
    assert x != "" ==> open[1] == x[0] && x[0] in x;
    ReplaceSplits(a + open, inner, y, v);
    ReplaceSplits(a, open, y, v);
    assert '}' in what && '}' !in open;
    ReplaceNothing(open, what, v);
    assert inner[|what|..] == b;
  }

  lemma EachOfTwo(s: string, k: string, l: string, params: map<string, string>)
    requires k in params && l in params
    ensures ReplaceEach(s, [k, l], params) ==
            ReplaceAll(ReplaceAll(s, Placeholder(k), params[k]), Placeholder(l), params[l])
  {
    assert [k, l][..1] == [k] && [k][..0] == [];
    assert ReplaceEach(s, [k], params) == ReplaceAll(s, Placeholder(k), params[k]);
  }

  lemma Completes(a: string, x: string, q: string, b: string)
    ensures a + ("{" + x) + ((q + "}") + b) == a + Placeholder(x + q) + b
  {
    assert ("{" + x) + ((q + "}") + b) == Placeholder(x + q) + b;
    Assoc(a, "{" + x, (q + "}") + b);
    Assoc(a, Placeholder(x + q), b);
  }

  /** A name too long to occur in the template, completed by the value of the inner one. */
  lemma CompletedName(a: string, x: string, y: string, b: string, q: string)
    requires '{' !in x && '}' !in x && PlainName(y) && Unnested(y)
    requires |q| > |a + ("{" + x) + (Placeholder(y) + b)|
    ensures var s := a + ("{" + x) + (Placeholder(y) + b);
            var outer := Placeholder(x + q);
            ReplaceAll(ReplaceAll(s, outer, ""), Placeholder(y), q + "}")
            != ReplaceAll(ReplaceAll(s, Placeholder(y), q + "}"), outer, "")
  {
    var s := a + ("{" + x) + (Placeholder(y) + b);
    var outer, v := Placeholder(x + q), q + "}";
    TooLongToOccur(s, outer, "");
    InnerFirst(a, x, y, b, v);
    var a', b' := ReplaceAll(a, Placeholder(y), v), ReplaceAll(b, Placeholder(y), v);
    Completes(a', x, q, b');
    DeletingAnOccurrence(a', outer, b');
  }

  /** Two parameters, named `k` and `y`, and two orders that disagree on a template that is not
      flat. */
  lemma OrdersDisagree(s: string) returns (k: string, y: string, v: string)
    requires !Flat(s)
    ensures PlainName(k) && PlainName(y) && k != y && '{' !in v
    ensures var params := map[k := "", y := v];
            ReplaceEach(s, [k, y], params) != ReplaceEach(s, [y, k], params)
  {
    var a, x, b;
    a, x, y, b := NotFlat(s);
    var q := Repeat('z', |s| + 1);
    k, v := x + q, q + "}";
    var params := map[k := "", y := v];
    assert |k| > |y|;
    EachOfTwo(s, k, y, params);
    EachOfTwo(s, y, k, params);
    CompletedName(a, x, y, b, q);
  }

  lemma TwoOrders(k: string, y: string, v: string)
    requires k != y
    ensures var params := map[k := "", y := v];
            Enumerates([k, y], params) && Enumerates([y, k], params)
  {
  }

  /** The order in which Go walks the parameter map does not matter, for any plain parameters,
      exactly for the flat templates. */
  lemma OrderIrrelevantExactly(s: string)
    ensures Flat(s) <==>
            forall params, one, two ::
              Plain(params) && Enumerates(one, params) && Enumerates(two, params) ==>
              ReplaceEach(s, one, params) == ReplaceEach(s, two, params)
  {
    if Flat(s) {
      forall params, one, two | Plain(params) && Enumerates(one, params) && Enumerates(two, params)
        ensures ReplaceEach(s, one, params) == ReplaceEach(s, two, params)
      {
        ReplaceEachIsSubst(s, one, params);
        ReplaceEachIsSubst(s, two, params);
      }
    } else {
      var k, y, v := OrdersDisagree(s);
      var params := map[k := "", y := v];
      TwoOrders(k, y, v);
      assert Plain(params);
    }
  }
}
