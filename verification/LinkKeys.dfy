/** Where a layer's link file lives: `sumFileInfo` and `sumOllamaLayerInfo` of
    pkg/handler/mutates.go, and what the link cache may conclude from two layers sharing one. */
module LinkKeys {
  import opened Prelude
  import opened Text
  import opened LinkCodec
  import opened Rules
  import opened Dispatch
  import opened DirWalk

  const NUL := '\0'

  function FileKey(sum: string -> string, linkPath: string, mount: string, f: Rules.File): string {
    LinkFile(linkPath, mount, sum(Join([f.source, f.destination, f.mode], NUL)))
  }

  /** The model name is not part of the key. */
  function OllamaKey(sum: string -> string, linkPath: string, mount: string, o: Ollama): string {
    LinkFile(linkPath, mount, sum(Join([o.model, o.workDir], NUL)))
  }

  /** `path.Join` of parts that are already clean. */
  function LinkFile(linkPath: string, mount: string, hash: string): (r: string)
    ensures HasPrefix(r, linkPath + "/")
  {
    linkPath + "/" + (mount + "/" + hash) + "/link"
  }

  ghost predicate Hashes(sum: string -> string) {
    && (forall a, b :: sum(a) == sum(b) ==> a == b)
    && (forall a :: '/' !in sum(a))
  }

  lemma {:induction false} JoinThenSplit(parts: seq<string>, c: char)
    requires parts != [] && forall i :: 0 <= i < |parts| ==> c !in parts[i]
    ensures Split(Join(parts, c), c) == parts
  {
    if |parts| == 1 {
      SplitPlain(parts[0], c);
    } else {
      JoinThenSplit(parts[1..], c);
      SplitPlain(parts[0], c);
      SplitAt(parts[0], Join(parts[1..], c), c);
      HeadTail(parts);
    }
  }

  lemma JoinIsInjective(a: seq<string>, b: seq<string>, c: char)
    requires a != [] && b != [] && Join(a, c) == Join(b, c)
    requires (forall i :: 0 <= i < |a| ==> c !in a[i]) && (forall i :: 0 <= i < |b| ==> c !in b[i])
    ensures a == b
  {
    JoinThenSplit(a, c);
    JoinThenSplit(b, c);
  }

  lemma LinkFileIsInjective(linkPath: string, m: string, h: string, n: string, k: string)
    requires '/' !in h && '/' !in k && LinkFile(linkPath, m, h) == LinkFile(linkPath, n, k)
    ensures m == n && h == k
  {
    var a, b := m + "/" + h, n + "/" + k;
    var s := LinkFile(linkPath, m, h);
    assert s == linkPath + "/" + a + "/link" && s == linkPath + "/" + b + "/link";
    assert a == s[|linkPath| + 1..|s| - 5] && b == s[|linkPath| + 1..|s| - 5];
    LastSlash(m, h, n, k);
  }

  /** Two file layers share a link exactly when they agree on mount, source, destination and mode. */
  lemma FileKeysAgreeExactly(sum: string -> string, linkPath: string, m: string, f: Rules.File, n: string, g: Rules.File)
    requires Hashes(sum)
    requires NUL !in f.source && NUL !in f.destination && NUL !in f.mode
    requires NUL !in g.source && NUL !in g.destination && NUL !in g.mode
    ensures FileKey(sum, linkPath, m, f) == FileKey(sum, linkPath, n, g) <==> m == n && f == g
  {
    var a, b := [f.source, f.destination, f.mode], [g.source, g.destination, g.mode];
    if FileKey(sum, linkPath, m, f) == FileKey(sum, linkPath, n, g) {
      LinkFileIsInjective(linkPath, m, sum(Join(a, NUL)), n, sum(Join(b, NUL)));
      JoinIsInjective(a, b, NUL);
      assert a[0] == b[0] && a[1] == b[1] && a[2] == b[2];
    }
  }

  /** Two model layers share a link exactly when they agree on mount, model and working directory;
      whatever else they are made with makes no difference. */
  lemma OllamaKeysAgreeExactly(sum: string -> string, linkPath: string, m: string, o: Ollama, n: string, p: Ollama)
    requires Hashes(sum)
    requires NUL !in o.model && NUL !in o.workDir && NUL !in p.model && NUL !in p.workDir
    ensures OllamaKey(sum, linkPath, m, o) == OllamaKey(sum, linkPath, n, p) <==>
            m == n && o.model == p.model && o.workDir == p.workDir
  {
    var a, b := [o.model, o.workDir], [p.model, p.workDir];
    if OllamaKey(sum, linkPath, m, o) == OllamaKey(sum, linkPath, n, p) {
      LinkFileIsInjective(linkPath, m, sum(Join(a, NUL)), n, sum(Join(b, NUL)));
      JoinIsInjective(a, b, NUL);
      assert a[0] == b[0] && a[1] == b[1];
    }
  }

  /** A file layer and a model layer never share a link. */
  lemma KindsNeverShare(sum: string -> string, linkPath: string, m: string, f: Rules.File, n: string, o: Ollama)
    requires Hashes(sum)
    requires NUL !in f.source && NUL !in f.destination && NUL !in f.mode && NUL !in o.model && NUL !in o.workDir
    ensures FileKey(sum, linkPath, m, f) != OllamaKey(sum, linkPath, n, o)
  {
    var a, b := [f.source, f.destination, f.mode], [o.model, o.workDir];
    if FileKey(sum, linkPath, m, f) == OllamaKey(sum, linkPath, n, o) {
      LinkFileIsInjective(linkPath, m, sum(Join(a, NUL)), n, sum(Join(b, NUL)));
      JoinIsInjective(a, b, NUL);
    }
  }

  // ----- the layers of one directory source -----

  predicate CleanNames(l: Listing) {
    match l
    case Nil => true
    case File(n, rest) => '/' !in n && CleanNames(rest)
    case Dir(n, entries, rest) => '/' !in n && CleanNames(entries) && CleanNames(rest)
    case Unreadable(n, rest) => '/' !in n && CleanNames(rest)
  }

  predicate CleanPath(path: seq<string>) {
    path != [] && forall i :: 0 <= i < |path| ==> '/' !in path[i]
  }

  ghost predicate CleanEntries(entries: seq<Entry>) {
    forall i :: 0 <= i < |entries| ==> CleanPath(entries[i].path)
  }

  lemma {:induction false} CollectedPathsAreClean(l: Listing, host: seq<string>, path: seq<string>)
    requires CleanNames(l) && CleanPath(path) && Collect(l, host, path).Ok?
    ensures CleanEntries(Collect(l, host, path).value)
  {
    match l
    case Nil =>
    case File(n, rest) =>
      CollectedPathsAreClean(rest, host, path);
    case Dir(n, entries, rest) =>
      CollectedPathsAreClean(entries, host + [n], path + [n]);
      CollectedPathsAreClean(entries, host + [n], path);
      CollectedPathsAreClean(rest, host, path);
    case Unreadable(_, _) =>
  }

  function EntryKey(sum: string -> string, linkPath: string, f: Rules.File, e: Entry): string {
    FileKey(sum, linkPath, Join(e.path, '/'), f)
  }

  lemma EntryKeysAgreeExactly(sum: string -> string, linkPath: string, f: Rules.File, a: Entry, b: Entry)
    requires Hashes(sum) && NUL !in f.source && NUL !in f.destination && NUL !in f.mode
    requires CleanPath(a.path) && CleanPath(b.path)
    ensures EntryKey(sum, linkPath, f, a) == EntryKey(sum, linkPath, f, b) <==> a.path == b.path
  {
    FileKeysAgreeExactly(sum, linkPath, Join(a.path, '/'), f, Join(b.path, '/'), f);
    if Join(a.path, '/') == Join(b.path, '/') {
      JoinIsInjective(a.path, b.path, '/');
    }
  }

  /** Layers that share a link have the same in them, `content` saying what a host file holds. */
  ghost predicate LinksMeanContent<C>(sum: string -> string, linkPath: string, f: Rules.File, entries: seq<Entry>,
                                      content: seq<string> -> C) {
    forall i, j :: 0 <= i < |entries| && 0 <= j < |entries|
                   && EntryKey(sum, linkPath, f, entries[i]) == EntryKey(sum, linkPath, f, entries[j]) ==>
                     content(entries[i].host) == content(entries[j].host)
  }

  function HostOf(host: seq<string>, p: Place): seq<string> {
    host + p.dirs + [p.name]
  }

  /** Files of the tree with the same base name hold the same. */
  ghost predicate NamesMeanContent<C>(l: Listing, host: seq<string>, content: seq<string> -> C) {
    forall i, j :: 0 <= i < |Places(l)| && 0 <= j < |Places(l)| && Places(l)[i].name == Places(l)[j].name ==>
                     content(HostOf(host, Places(l)[i])) == content(HostOf(host, Places(l)[j]))
  }

  /** What the links of one directory source are made from. */
  ghost predicate Source(sum: string -> string, f: Rules.File, l: Listing, path: seq<string>) {
    && Hashes(sum) && NUL !in f.source && NUL !in f.destination && NUL !in f.mode
    && Readable(l) && CleanNames(l) && CleanPath(path)
  }

  lemma SameNameSameLink<C>(sum: string -> string, linkPath: string, f: Rules.File,
                            l: Listing, host: seq<string>, path: seq<string>, content: seq<string> -> C, i: nat, j: nat)
    requires Source(sum, f, l, path) && Collect(l, host, path).Ok?
    requires LinksMeanContent(sum, linkPath, f, Collect(l, host, path).value, content)
    requires i < |Places(l)| && j < |Places(l)| && Places(l)[i].name == Places(l)[j].name
    ensures content(HostOf(host, Places(l)[i])) == content(HostOf(host, Places(l)[j]))
  {
    FlattenedEntry(l, host, path, i);
    FlattenedEntry(l, host, path, j);
    var name, out := Places(l)[i].name, Collect(l, host, path).value;
    var e, g := Entry(path + [name], HostOf(host, Places(l)[i])), Entry(path + [name], HostOf(host, Places(l)[j]));
    var m: nat :| m < |out| && out[m] == e;
    var n: nat :| n < |out| && out[n] == g;
    assert EntryKey(sum, linkPath, f, out[m]) == EntryKey(sum, linkPath, f, out[n]);
  }

  lemma SameLinkSameName(sum: string -> string, linkPath: string, f: Rules.File,
                         l: Listing, host: seq<string>, path: seq<string>, e: Entry, g: Entry) returns (i: nat, j: nat)
    requires Source(sum, f, l, path) && Collect(l, host, path).Ok?
    requires e in Collect(l, host, path).value && g in Collect(l, host, path).value
    requires EntryKey(sum, linkPath, f, e) == EntryKey(sum, linkPath, f, g)
    ensures i < |Places(l)| && j < |Places(l)| && Places(l)[i].name == Places(l)[j].name
    ensures e.host == HostOf(host, Places(l)[i]) && g.host == HostOf(host, Places(l)[j])
  {
    CollectedPathsAreClean(l, host, path);
    EntryKeysAgreeExactly(sum, linkPath, f, e, g);
    i := EntryShape(l, host, path, e);
    j := EntryShape(l, host, path, g);
  }

  /** The link cache needs equal links to mean equal content.  For the layers of a directory
      source that is so exactly when files of the tree with the same base name hold the same. */
  lemma DirectoryLinksAreSoundExactly<C>(sum: string -> string, linkPath: string, f: Rules.File,
                                         l: Listing, host: seq<string>, path: seq<string>, content: seq<string> -> C)
    requires Source(sum, f, l, path)
    ensures Collect(l, host, path).Ok?
    ensures LinksMeanContent(sum, linkPath, f, Collect(l, host, path).value, content) <==> NamesMeanContent(l, host, content)
  {
    CollectFailsExactly(l, host, path);
    var out := Collect(l, host, path).value;
    if NamesMeanContent(l, host, content) {
      forall m, n | 0 <= m < |out| && 0 <= n < |out|
                    && EntryKey(sum, linkPath, f, out[m]) == EntryKey(sum, linkPath, f, out[n])
        ensures content(out[m].host) == content(out[n].host)
      {
        var i, j := SameLinkSameName(sum, linkPath, f, l, host, path, out[m], out[n]);
      }
    }
    if LinksMeanContent(sum, linkPath, f, out, content) {
      forall i, j | 0 <= i < |Places(l)| && 0 <= j < |Places(l)| && Places(l)[i].name == Places(l)[j].name
        ensures content(HostOf(host, Places(l)[i])) == content(HostOf(host, Places(l)[j]))
      {
        SameNameSameLink(sum, linkPath, f, l, host, path, content, i, j);
      }
    }
  }

  /** Whatever the files hold, then, exactly when no two of them share a base name. */
  lemma DirectoryLinksTellFilesApartExactly(sum: string -> string, linkPath: string, f: Rules.File,
                                            l: Listing, host: seq<string>, path: seq<string>)
    requires Source(sum, f, l, path)
    ensures Collect(l, host, path).Ok?
    ensures LinksMeanContent(sum, linkPath, f, Collect(l, host, path).value, h => h) <==> NamesDistinct(l)
  {
    var self: seq<string> -> seq<string> := h => h;
    DirectoryLinksAreSoundExactly(sum, linkPath, f, l, host, path, self);
    forall i, j | 0 <= i < |Places(l)| && 0 <= j < |Places(l)| && HostOf(host, Places(l)[i]) == HostOf(host, Places(l)[j])
      ensures Places(l)[i] == Places(l)[j]
    {
      SameHostSamePlace(host, Places(l)[i], Places(l)[j]);
    }
  }

  // ----- the link cache's assumption -----

  /** `truth` says for every link what the layers with that link really are; `made` is the layer
      made of a path and a file's content. */
  ghost predicate TruthPerLink(sum: string -> string, linkPath: string, f: Rules.File, entries: seq<Entry>,
                                  content: seq<string> -> string, made: (seq<string>, string) -> LinkInfo,
                                  truth: string -> LinkInfo) {
    forall i :: 0 <= i < |entries| ==>
      truth(EntryKey(sum, linkPath, f, entries[i])) == made(entries[i].path, content(entries[i].host))
  }

  ghost function LinkOwner(sum: string -> string, linkPath: string, f: Rules.File, entries: seq<Entry>, key: string): (i: nat)
    requires entries != []
    ensures i < |entries|
    ensures (exists j :: 0 <= j < |entries| && EntryKey(sum, linkPath, f, entries[j]) == key) ==>
              EntryKey(sum, linkPath, f, entries[i]) == key
  {
    if j: nat :| j < |entries| && EntryKey(sum, linkPath, f, entries[j]) == key then j else 0
  }

  /** `AnswersAreTrue` in `LinkCache` starts from one truth per link.  When different contents make
      different layers, the layers of a directory source have such a truth exactly when equal base
      names mean equal content. */
  lemma TruthPerLinkExactly(sum: string -> string, linkPath: string, f: Rules.File,
                               l: Listing, host: seq<string>, path: seq<string>,
                               content: seq<string> -> string, made: (seq<string>, string) -> LinkInfo)
    requires Source(sum, f, l, path)
    requires forall p, c, d :: made(p, c) == made(p, d) ==> c == d
    ensures Collect(l, host, path).Ok?
    ensures (exists truth :: TruthPerLink(sum, linkPath, f, Collect(l, host, path).value, content, made, truth))
            <==> NamesMeanContent(l, host, content)
  {
    DirectoryLinksAreSoundExactly(sum, linkPath, f, l, host, path, content);
    CollectedPathsAreClean(l, host, path);
    var out := Collect(l, host, path).value;
    if LinksMeanContent(sum, linkPath, f, out, content) {
      var truth := TruthFromLinks(sum, linkPath, f, out, content, made);
    }
    forall truth | TruthPerLink(sum, linkPath, f, out, content, made, truth)
      ensures LinksMeanContent(sum, linkPath, f, out, content)
    {
      LinksFromTruth(sum, linkPath, f, out, content, made, truth);
    }
  }

  lemma TruthFromLinks(sum: string -> string, linkPath: string, f: Rules.File, entries: seq<Entry>,
                          content: seq<string> -> string, made: (seq<string>, string) -> LinkInfo)
    returns (truth: string -> LinkInfo)
    requires Hashes(sum) && NUL !in f.source && NUL !in f.destination && NUL !in f.mode && CleanEntries(entries)
    requires LinksMeanContent(sum, linkPath, f, entries, content)
    ensures TruthPerLink(sum, linkPath, f, entries, content, made, truth)
  {
    if entries == [] {
      truth := key => LinkInfo(NO_HASH, NO_HASH, 0);
    } else {
      truth := key => var e := entries[LinkOwner(sum, linkPath, f, entries, key)]; made(e.path, content(e.host));
      forall i | 0 <= i < |entries|
        ensures truth(EntryKey(sum, linkPath, f, entries[i])) == made(entries[i].path, content(entries[i].host))
      {
        var k := LinkOwner(sum, linkPath, f, entries, EntryKey(sum, linkPath, f, entries[i]));
        EntryKeysAgreeExactly(sum, linkPath, f, entries[k], entries[i]);
      }
    }
  }

  lemma LinksFromTruth(sum: string -> string, linkPath: string, f: Rules.File, entries: seq<Entry>,
                          content: seq<string> -> string, made: (seq<string>, string) -> LinkInfo, truth: string -> LinkInfo)
    requires Hashes(sum) && NUL !in f.source && NUL !in f.destination && NUL !in f.mode && CleanEntries(entries)
    requires forall p, c, d :: made(p, c) == made(p, d) ==> c == d
    requires TruthPerLink(sum, linkPath, f, entries, content, made, truth)
    ensures LinksMeanContent(sum, linkPath, f, entries, content)
  {
    forall i, j | 0 <= i < |entries| && 0 <= j < |entries|
                  && EntryKey(sum, linkPath, f, entries[i]) == EntryKey(sum, linkPath, f, entries[j])
      ensures content(entries[i].host) == content(entries[j].host)
    {
      EntryKeysAgreeExactly(sum, linkPath, f, entries[i], entries[j]);
      var c, d := content(entries[i].host), content(entries[j].host);
      assert made(entries[i].path, c) == made(entries[i].path, d);
    }
  }
}
