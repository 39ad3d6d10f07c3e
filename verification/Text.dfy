/** The parts of Go's `strings` package that the pattern code relies on.
    A Go string is a sequence of bytes; one `char` stands for one byte. */
module Text {
  /** `strings.HasPrefix`. */
  predicate HasPrefix(s: string, prefix: string) {
    prefix <= s
  }

  /** Position of the first `c` in `s`, or the length of `s` when there is none. */
  function IndexOf(s: string, c: char): (n: nat)
    ensures n <= |s|
    ensures c !in s[..n]
    ensures n < |s| ==> s[n] == c
  {
    if s == "" || s[0] == c then 0
    else
      var n := IndexOf(s[1..], c);
      assert s[..n + 1] == [s[0]] + s[1..][..n];
      n + 1
  }

  lemma IndexOfUnique(s: string, c: char, n: nat)
    requires n <= |s| && c !in s[..n] && (n < |s| ==> s[n] == c)
    ensures IndexOf(s, c) == n
  {
    if n > 0 {
      assert s[..n][0] == s[0];
      assert s[1..][..n - 1] == s[..n][1..];
      IndexOfUnique(s[1..], c, n - 1);
    }
  }

  function Repeat(c: char, n: nat): (r: string)
    ensures |r| == n && forall d :: d in r ==> d == c
  {
    seq(n, _ => c)
  }

  // Sequence facts the verifier is slow to see inside larger goals.

  lemma Assoc<T>(a: seq<T>, b: seq<T>, c: seq<T>)
    ensures a + (b + c) == a + b + c
  {
  }

  lemma HeadTail<T>(s: seq<T>)
    requires s != []
    ensures [s[0]] + s[1..] == s
  {
  }

  lemma Cut<T>(s: seq<T>, i: nat, j: nat)
    requires i <= j <= |s|
    ensures s[..i] + s[i..j] == s[..j] && s[i..j] + s[j..] == s[i..] && s[..i] + s[i..] == s
  {
  }

  /** The pieces, one after the other. */
  function Concat(pieces: seq<string>): string {
    if pieces == [] then "" else pieces[0] + Concat(pieces[1..])
  }

  lemma ConcatSmall(a: string, b: string)
    ensures Concat([a]) == a
    ensures Concat([a, b]) == a + b
  {
    assert [a][1..] == [] && [a, b][1..] == [b];
    assert a + "" == a && b + "" == b;
    assert Concat([b]) == b;
  }

  lemma {:induction false} ConcatAppend(a: seq<string>, b: seq<string>)
    ensures Concat(a + b) == Concat(a) + Concat(b)
  {
    if a == [] {
      assert a + b == b;
    } else {
      assert (a + b)[1..] == a[1..] + b;
      ConcatAppend(a[1..], b);
    }
  }
}
