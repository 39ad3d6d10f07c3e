/** Local directories as layers: `tarDirToDir` of pkg/builder/files/files.go, a recursion inside a
    walk that is itself recursive. */
module DirWalk {
  import opened Prelude

  /** The entries of a directory in walk order.  `Unreadable` is an entry on which the walk reports
      an error: one that cannot be examined, or a directory that cannot be listed. */
  datatype Listing =
    | Nil
    | File(name: string, rest: Listing)
    | Dir(name: string, entries: Listing, rest: Listing)
    | Unreadable(name: string, rest: Listing)

  /** One file of a layer: the path it gets, and the path it is read from. */
  datatype Entry = Entry(path: seq<string>, host: seq<string>)

  type Walked = Result<seq<Entry>, seq<string>>

  function Then(a: Walked, b: Walked): Walked {
    if a.Err? then a else if b.Err? then b else Ok(a.value + b.value)
  }

  /** What the walk of one directory collects.  At a sub-directory the callback collects the
      sub-directory under its own name; then the walk descends into it all the same. */
  function Collect(l: Listing, host: seq<string>, path: seq<string>): Walked {
    match l
    case Nil => Ok([])
    case File(n, rest) => Then(Ok([Entry(path + [n], host + [n])]), Collect(rest, host, path))
    case Dir(n, entries, rest) =>
      Then(Then(Collect(entries, host + [n], path + [n]), Collect(entries, host + [n], path)),
           Collect(rest, host, path))
    case Unreadable(n, _) => Err(host + [n])
  }

  /** `tarDirToDir`'s callback, run over a listing: each call appends to the files found so far. */
  method Walk(l: Listing, host: seq<string>, path: seq<string>, found: seq<Entry>) returns (r: Walked)
    ensures r == Then(Ok(found), Collect(l, host, path))
    decreases l
  {
    match l
    case Nil =>
      ThenEmpty(found, Ok(found));
      return Ok(found);
    case File(n, rest) =>
      r := Walk(rest, host, path, found + [Entry(path + [n], host + [n])]);
      ThenAssociates(found, Ok([Entry(path + [n], host + [n])]), Collect(rest, host, path));
    case Dir(n, entries, rest) =>
      var inner := Walk(entries, host + [n], path + [n], []);
      ThenEmpty(found, Collect(entries, host + [n], path + [n]));
      if inner.Err? {
        return Err(inner.error);
      }
      var all := Walk(entries, host + [n], path, found + inner.value);
      if all.Err? {
        return Err(all.error);
      }
      r := Walk(rest, host, path, all.value);
      DirShape(found, inner.value, Collect(entries, host + [n], path), Collect(rest, host, path));
    case Unreadable(n, _) =>
      return Err(host + [n]);
  }

  lemma ThenEmpty(found: seq<Entry>, a: Walked)
    ensures Then(Ok(found), Ok([])) == Ok(found)
    ensures Then(Ok([]), a) == a
  {
    assert found + [] == found;
    assert a.Ok? ==> [] + a.value == a.value;
  }

  lemma ThenAssociates(found: seq<Entry>, a: Walked, b: Walked)
    ensures Then(Ok(found), Then(a, b)) == Then(Then(Ok(found), a), b)
  {
    if a.Ok? && b.Ok? {
      assert found + (a.value + b.value) == found + a.value + b.value;
    }
  }

  lemma DirShape(found: seq<Entry>, inner: seq<Entry>, below: Walked, rest: Walked)
    ensures Then(Ok(found), Then(Then(Ok(inner), below), rest)) ==
            Then(Then(Ok(found + inner), below), rest)
  {
    ThenAssociates(found, Then(Ok(inner), below), rest);
    ThenAssociates(found, Ok(inner), below);
  }

  /** A directory on the host; the root of a walk that cannot be listed counts as empty. */
  datatype Root = Listed(entries: Listing) | Unlisted

  /** `tarDirToDir`. */
  method TarDirToDir(root: Root, host: seq<string>, path: seq<string>) returns (r: Walked)
    ensures r == if root.Unlisted? then Ok([]) else Collect(root.entries, host, path)
  {
    if root.Unlisted? {
      return Ok([]);
    }
    r := Walk(root.entries, host, path, []);
    ThenEmpty([], Collect(root.entries, host, path));
  }

  // ----- what is collected -----

  /** A file of the tree: the directories between the root and it, and its name. */
  datatype Place = Place(dirs: seq<string>, name: string)

  function Below(dir: string, places: seq<Place>): seq<Place> {
    if places == [] then []
    else [Place([dir] + places[0].dirs, places[0].name)] + Below(dir, places[1..])
  }

  /** The regular files of the tree, each once. */
  function Places(l: Listing): seq<Place> {
    match l
    case Nil => []
    case File(n, rest) => [Place([], n)] + Places(rest)
    case Dir(n, entries, rest) => Below(n, Places(entries)) + Places(rest)
    case Unreadable(_, rest) => Places(rest)
  }

  predicate Readable(l: Listing) {
    match l
    case Nil => true
    case File(_, rest) => Readable(rest)
    case Dir(_, entries, rest) => Readable(entries) && Readable(rest)
    case Unreadable(_, _) => false
  }

  /** All subsequences of a list of directories, one for each choice of members. */
  function Subsequences(dirs: seq<string>): (r: seq<seq<string>>) {
    if dirs == [] then [[]]
    else Prefixed(dirs[0], Subsequences(dirs[1..])) + Subsequences(dirs[1..])
  }

  function Prefixed(dir: string, lists: seq<seq<string>>): seq<seq<string>> {
    if lists == [] then [] else [[dir] + lists[0]] + Prefixed(dir, lists[1..])
  }

  function EntriesAt(path: seq<string>, choices: seq<seq<string>>, name: string, host: seq<string>): seq<Entry> {
    if choices == [] then []
    else [Entry(path + choices[0] + [name], host)] + EntriesAt(path, choices[1..], name, host)
  }

  /** The entries that one file gives rise to. */
  function EntriesOf(p: Place, host: seq<string>, path: seq<string>): seq<Entry> {
    EntriesAt(path, Subsequences(p.dirs), p.name, host + p.dirs + [p.name])
  }

  function EntriesOfAll(places: seq<Place>, host: seq<string>, path: seq<string>): multiset<Entry> {
    if places == [] then multiset{}
    else multiset(EntriesOf(places[0], host, path)) + EntriesOfAll(places[1..], host, path)
  }

  lemma {:induction false} EntriesAtAppend(path: seq<string>, a: seq<seq<string>>, b: seq<seq<string>>,
                                           name: string, host: seq<string>)
    ensures EntriesAt(path, a + b, name, host) == EntriesAt(path, a, name, host) + EntriesAt(path, b, name, host)
  {
    if a == [] {
      assert a + b == b;
    } else {
      assert (a + b)[1..] == a[1..] + b;
      EntriesAtAppend(path, a[1..], b, name, host);
    }
  }

  lemma {:induction false} EntriesAtPrefixed(path: seq<string>, dir: string, a: seq<seq<string>>,
                                             name: string, host: seq<string>)
    ensures EntriesAt(path, Prefixed(dir, a), name, host) == EntriesAt(path + [dir], a, name, host)
  {
    if a != [] {
      EntriesAtPrefixed(path, dir, a[1..], name, host);
      assert Prefixed(dir, a)[1..] == Prefixed(dir, a[1..]);
      assert path + ([dir] + a[0]) + [name] == path + [dir] + a[0] + [name];
    }
  }

  /** A file below a directory gives the entries with that directory and the entries without it. */
  lemma EntriesBelow(dir: string, p: Place, host: seq<string>, path: seq<string>)
    ensures EntriesOf(Place([dir] + p.dirs, p.name), host, path) ==
            EntriesOf(p, host + [dir], path + [dir]) + EntriesOf(p, host + [dir], path)
  {
    var dirs, subs := [dir] + p.dirs, Subsequences(p.dirs);
    var file := host + dirs + [p.name];
    assert dirs[1..] == p.dirs;
    assert file == host + [dir] + p.dirs + [p.name];
    EntriesAtAppend(path, Prefixed(dir, subs), subs, p.name, file);
    EntriesAtPrefixed(path, dir, subs, p.name, file);
  }

  lemma {:induction false} AllEntriesBelow(dir: string, places: seq<Place>, host: seq<string>, path: seq<string>)
    ensures EntriesOfAll(Below(dir, places), host, path) ==
            EntriesOfAll(places, host + [dir], path + [dir]) + EntriesOfAll(places, host + [dir], path)
  {
    if places != [] {
      AllEntriesBelow(dir, places[1..], host, path);
      EntriesBelow(dir, places[0], host, path);
      assert Below(dir, places)[1..] == Below(dir, places[1..]);
    }
  }

  lemma {:induction false} EntriesOfAllAppend(a: seq<Place>, b: seq<Place>, host: seq<string>, path: seq<string>)
    ensures EntriesOfAll(a + b, host, path) == EntriesOfAll(a, host, path) + EntriesOfAll(b, host, path)
  {
    if a == [] {
      assert a + b == b;
    } else {
      assert (a + b)[1..] == a[1..] + b;
      EntriesOfAllAppend(a[1..], b, host, path);
    }
  }

  /** The walk fails exactly when something below the root cannot be read. */
  lemma {:induction false} CollectFailsExactly(l: Listing, host: seq<string>, path: seq<string>)
    ensures Collect(l, host, path).Ok? <==> Readable(l)
  {
    match l
    case Nil =>
    case File(n, rest) => CollectFailsExactly(rest, host, path);
    case Dir(n, entries, rest) =>
      CollectFailsExactly(entries, host + [n], path + [n]);
      CollectFailsExactly(entries, host + [n], path);
      CollectFailsExactly(rest, host, path);
    case Unreadable(_, _) =>
  }

  /** Exactly these entries come out, counted: for every regular file, one entry for each
      subsequence of the directories between the root and the file, at the path made of the new
      root, that subsequence and the file's name, and reading that very file. */
  lemma {:induction false} CollectedExactly(l: Listing, host: seq<string>, path: seq<string>)
    requires Readable(l)
    ensures Collect(l, host, path).Ok?
    ensures multiset(Collect(l, host, path).value) == EntriesOfAll(Places(l), host, path)
  {
    match l
    case Nil =>
    case File(n, rest) =>
      CollectedExactly(rest, host, path);
      RootFile(n, host, path);
      assert ([Place([], n)] + Places(rest))[1..] == Places(rest);
    case Dir(n, entries, rest) =>
      CollectedExactly(entries, host + [n], path + [n]);
      CollectedExactly(entries, host + [n], path);
      CollectedExactly(rest, host, path);
      AllEntriesBelow(n, Places(entries), host, path);
      EntriesOfAllAppend(Below(n, Places(entries)), Places(rest), host, path);
  }

  lemma RootFile(name: string, host: seq<string>, path: seq<string>)
    ensures EntriesOf(Place([], name), host, path) == [Entry(path + [name], host + [name])]
  {
    var empty: seq<seq<string>> := [];
    var none: seq<string> := [];
    assert [none][1..] == empty;
    assert path + none + [name] == path + [name] && host + none + [name] == host + [name];
    assert EntriesAt(path, empty, name, host + [name]) == [];
  }

  function Pow2(n: nat): nat {
    if n == 0 then 1 else 2 * Pow2(n - 1)
  }

  lemma {:induction false} HowManySubsequences(dirs: seq<string>)
    ensures |Subsequences(dirs)| == Pow2(|dirs|)
  {
    if dirs != [] {
      HowManySubsequences(dirs[1..]);
      PrefixedLength(dirs[0], Subsequences(dirs[1..]));
    }
  }

  lemma {:induction false} PrefixedLength(dir: string, lists: seq<seq<string>>)
    ensures |Prefixed(dir, lists)| == |lists|
  {
    if lists != [] {
      PrefixedLength(dir, lists[1..]);
    }
  }

  lemma {:induction false} EntriesAtAre(path: seq<string>, choices: seq<seq<string>>, name: string, host: seq<string>)
    ensures |EntriesAt(path, choices, name, host)| == |choices|
    ensures forall i :: 0 <= i < |choices| ==>
              EntriesAt(path, choices, name, host)[i] == Entry(path + choices[i] + [name], host)
  {
    if choices != [] {
      EntriesAtAre(path, choices[1..], name, host);
    }
  }

  lemma {:induction false} WholePathIsFirst(dirs: seq<string>)
    ensures Subsequences(dirs) != [] && Subsequences(dirs)[0] == dirs
  {
    if dirs != [] {
      WholePathIsFirst(dirs[1..]);
    }
  }

  /** A file below k directories gives 2^k entries, all reading that file; the first one is at the
      file's own relative path. */
  lemma EntriesOfOneFile(p: Place, host: seq<string>, path: seq<string>)
    ensures |EntriesOf(p, host, path)| == Pow2(|p.dirs|)
    ensures forall i :: 0 <= i < |EntriesOf(p, host, path)| ==>
              EntriesOf(p, host, path)[i].host == host + p.dirs + [p.name]
    ensures EntriesOf(p, host, path) != []
    ensures EntriesOf(p, host, path)[0] == Entry(path + p.dirs + [p.name], host + p.dirs + [p.name])
  {
    HowManySubsequences(p.dirs);
    WholePathIsFirst(p.dirs);
    EntriesAtAre(path, Subsequences(p.dirs), p.name, host + p.dirs + [p.name]);
  }

  lemma {:induction false} EntryHasItsFile(places: seq<Place>, host: seq<string>, path: seq<string>, e: Entry)
    ensures e in EntriesOfAll(places, host, path) <==>
            exists i :: 0 <= i < |places| && e in EntriesOf(places[i], host, path)
  {
    if places != [] {
      EntryHasItsFile(places[1..], host, path, e);
      if i :| 0 <= i < |places[1..]| && e in EntriesOf(places[1..][i], host, path) {
        assert places[i + 1] == places[1..][i];
      }
      if i :| 0 <= i < |places| && e in EntriesOf(places[i], host, path) {
        assert i > 0 ==> places[1..][i - 1] == places[i];
      }
    }
  }

  lemma FileIsCovered(l: Listing, host: seq<string>, path: seq<string>, i: nat)
    requires Readable(l) && i < |Places(l)|
    ensures Collect(l, host, path).Ok?
    ensures Entry(path + Places(l)[i].dirs + [Places(l)[i].name], host + Places(l)[i].dirs + [Places(l)[i].name])
            in Collect(l, host, path).value
  {
    CollectedExactly(l, host, path);
    EntriesOfOneFile(Places(l)[i], host, path);
    var e := EntriesOf(Places(l)[i], host, path)[0];
    EntryHasItsFile(Places(l), host, path, e);
    assert e in multiset(Collect(l, host, path).value);
  }

  lemma EntryShape(l: Listing, host: seq<string>, path: seq<string>, e: Entry) returns (i: nat)
    requires Readable(l) && Collect(l, host, path).Ok? && e in Collect(l, host, path).value
    ensures i < |Places(l)| && e.host == host + Places(l)[i].dirs + [Places(l)[i].name]
    ensures e.path != [] && e.path[|e.path| - 1] == Places(l)[i].name
  {
    CollectedExactly(l, host, path);
    assert e in multiset(Collect(l, host, path).value);
    EntryHasItsFile(Places(l), host, path, e);
    i :| 0 <= i < |Places(l)| && e in EntriesOf(Places(l)[i], host, path);
    var p := Places(l)[i];
    EntriesAtAre(path, Subsequences(p.dirs), p.name, host + p.dirs + [p.name]);
  }

  /** The entry reads a regular file of the tree. */
  ghost predicate ReadsAFile(l: Listing, host: seq<string>, e: Entry) {
    exists p :: p in Places(l) && e.host == host + p.dirs + [p.name]
  }

  /** Coverage and soundness: every regular file gets an entry at its own relative path under the
      new root, and every entry reads a regular file of the tree. */
  lemma EveryFileAtItsPath(l: Listing, host: seq<string>, path: seq<string>)
    requires Readable(l)
    ensures Collect(l, host, path).Ok?
    ensures forall i :: 0 <= i < |Places(l)| ==>
              Entry(path + Places(l)[i].dirs + [Places(l)[i].name], host + Places(l)[i].dirs + [Places(l)[i].name])
              in Collect(l, host, path).value
    ensures forall e :: e in Collect(l, host, path).value ==> ReadsAFile(l, host, e)
  {
    CollectFailsExactly(l, host, path);
    forall i | 0 <= i < |Places(l)|
      ensures Entry(path + Places(l)[i].dirs + [Places(l)[i].name], host + Places(l)[i].dirs + [Places(l)[i].name])
              in Collect(l, host, path).value
    {
      FileIsCovered(l, host, path, i);
    }
    forall e | e in Collect(l, host, path).value
      ensures ReadsAFile(l, host, e)
    {
      var i := EntryShape(l, host, path, e);
      assert Places(l)[i] in Places(l);
    }
  }

  // ----- when paths tell files apart -----

  /** No two regular files of the tree share a base name. */
  ghost predicate NamesDistinct(l: Listing) {
    forall i, j :: 0 <= i < |Places(l)| && 0 <= j < |Places(l)| && Places(l)[i].name == Places(l)[j].name ==>
                     Places(l)[i] == Places(l)[j]
  }

  lemma {:induction false} EmptySubsequence(dirs: seq<string>)
    ensures [] in Subsequences(dirs)
  {
    if dirs != [] {
      EmptySubsequence(dirs[1..]);
    }
  }

  /** Every file also appears directly under the new root, without any of its directories. */
  lemma FlattenedEntry(l: Listing, host: seq<string>, path: seq<string>, i: nat)
    requires Readable(l) && i < |Places(l)|
    ensures Collect(l, host, path).Ok?
    ensures Entry(path + [Places(l)[i].name], host + Places(l)[i].dirs + [Places(l)[i].name])
            in Collect(l, host, path).value
  {
    var p := Places(l)[i];
    var file := host + p.dirs + [p.name];
    EmptySubsequence(p.dirs);
    var c: nat :| c < |Subsequences(p.dirs)| && Subsequences(p.dirs)[c] == [];
    EntriesAtAre(path, Subsequences(p.dirs), p.name, file);
    assert path + Subsequences(p.dirs)[c] + [p.name] == path + [p.name];
    var e := EntriesOf(p, host, path)[c];
    CollectedExactly(l, host, path);
    EntryHasItsFile(Places(l), host, path, e);
    assert e in multiset(Collect(l, host, path).value);
  }

  ghost predicate PathsTellFilesApart(entries: seq<Entry>) {
    forall e, f :: e in entries && f in entries && e.path == f.path ==> e.host == f.host
  }

  lemma DistinctNamesSuffice(l: Listing, host: seq<string>, path: seq<string>, e: Entry, f: Entry)
    requires Readable(l) && Collect(l, host, path).Ok? && NamesDistinct(l) && e.path == f.path
    requires e in Collect(l, host, path).value && f in Collect(l, host, path).value
    ensures e.host == f.host
  {
    var i := EntryShape(l, host, path, e);
    var j := EntryShape(l, host, path, f);
    assert Places(l)[i].name == Places(l)[j].name;
  }

  lemma SharedNamesCollide(l: Listing, host: seq<string>, path: seq<string>, i: nat, j: nat)
    requires Readable(l) && Collect(l, host, path).Ok? && PathsTellFilesApart(Collect(l, host, path).value)
    requires i < |Places(l)| && j < |Places(l)| && Places(l)[i].name == Places(l)[j].name
    ensures Places(l)[i] == Places(l)[j]
  {
    FlattenedEntry(l, host, path, i);
    FlattenedEntry(l, host, path, j);
    SameHostSamePlace(host, Places(l)[i], Places(l)[j]);
  }

  /** Within one directory source the layer path identifies the file, as the link cache assumes,
      exactly when no two files of the tree share a base name: the walk also puts every file
      directly under the new root. */
  lemma PathsTellFilesApartExactly(l: Listing, host: seq<string>, path: seq<string>)
    requires Readable(l)
    ensures Collect(l, host, path).Ok?
    ensures PathsTellFilesApart(Collect(l, host, path).value) <==> NamesDistinct(l)
  {
    CollectFailsExactly(l, host, path);
    var out := Collect(l, host, path).value;
    if NamesDistinct(l) {
      forall e, f | e in out && f in out && e.path == f.path
        ensures e.host == f.host
      {
        DistinctNamesSuffice(l, host, path, e, f);
      }
    }
    if PathsTellFilesApart(out) {
      forall i, j | 0 <= i < |Places(l)| && 0 <= j < |Places(l)| && Places(l)[i].name == Places(l)[j].name
        ensures Places(l)[i] == Places(l)[j]
      {
        SharedNamesCollide(l, host, path, i, j);
      }
    }
  }

  lemma SameHostSamePlace(host: seq<string>, p: Place, q: Place)
    requires host + p.dirs + [p.name] == host + q.dirs + [q.name]
    ensures p == q
  {
    var h := host + p.dirs + [p.name];
    assert p.dirs == h[|host|..|h| - 1] && q.dirs == h[|host|..|h| - 1];
    assert p.name == h[|h| - 1] && q.name == h[|h| - 1];
  }
}
