# JITDI, modelled and verified in Dafny

JITDI answers pulls of container images that do not exist yet: it finds the rule whose pattern
matches the requested reference, builds the image from the rule's base image and mutates, keeps the
result in a local content-addressed store, and serves it. This project models that path and proves
what each part promises the next.

| module | what it models |
|---|---|
| `PatternSyntax`, `PatternMatch`, `PatternGreedy`, `PatternOrder` | the template parser, the matcher, when the matcher misses nothing, the priority order |
| `Substitute`, `RoundTrip`, `Rules` | placeholder substitution, parse-match-substitute as a whole, rules and actions and their sorting |
| `Dispatch` | from an HTTP path to an image name, a tag and a rule |
| `SyncMap`, `SingleFlight`, `RequestRuns` | the build mutex map, the single-flight protocol, and manifest requests around it with the builds and the store inside |
| `BlobStore`, `StoreRuns`, `LocalPusher` | the file store, any number of interleaved builds on it, the pusher object |
| `LinkCodec`, `LinkCache`, `LinkKeys` | link files, the caching layer, which layers share a link |
| `RuleCache` | the cached rule list and the watcher that invalidates it |
| `IndexRebuild` | the build itself: mutates, the index rebuild loop, the final push |
| `DirWalk` | local directories as layers |

Objects that the Go code updates in place are classes (`Action`, `SyncMap`, `LocalPusher`,
`CacheFileLayer`, `LinkFiles`, `RuleHandler`, `ImageIndex`); their methods are proved against
functions, and the lemmas are about those functions. Loops of the Go code are loops here. What
interleaves (calls of `buildAndSave`, requests, builds on one store, the watcher) is a transition
system whose steps are the atomic steps of the code, and the results are about every state of every
run with any number of participants.

A Go string is a sequence of bytes; a `char` stands for one byte. SHA-256 is any collision-free
function, the JSON of a manifest any function to the digests it refers to, and the image library is
a `Toolkit` whose images describe themselves; these are parameters, and each result that needs a
property of them says so.

## What does not hold, and when it does

- The matcher does not backtrack. For alternating patterns that end in a wildcard it misses
  nothing. With a literal behind the last wildcard it misses a text exactly when the capture without
  that literal ends in the literal and contains it earlier (`TrailingLiteralMissesExactly`), as
  `{a}-x` does on `foo-x-x`.
- Of two wildcards in a row the first runs to the name of the second. A text that can be spelled is
  missed exactly when the pattern without the first of them matches it, but the part from the second
  on does not match what begins at the first occurrence of that name (`PairMissesExactly`), as with
  `{a}{b}-{c}` on `z-z`; at the very end of a pattern such a pair loses nothing (`PairAtTheEnd`).
  For any pattern that ends in a wildcard, the texts that match are those that can be spelled with
  every such stop at a name respected (`MatchIffSpelled`).
- `patternLess` is a strict weak order on alternating patterns, and a pattern keeps it one exactly
  when it alternates (`AlternationIsExact`); without alternation there are even cycles
  (`CycleWitness`), so the order in which such rules are tried is not determined.
- Filling wildcards with text always raises the priority of an alternating pattern
  (`MoreSpecificWins`), and the answer to a request is a matching rule that no matching rule has
  priority over. But a pattern of one segment has priority over all longer ones, even when that
  segment is a wildcard and matches everything (`LessExactly`).
- A push fails exactly when it comes to an empty layer that is not in the store already, and a build
  for no other reason than that or giving up (`LayersPushExactly`, `FailureHasReason`).
- Go walks a map in any order. The result of `replaceWithParams` does not depend on it, for all
  parameters that a match of a reference without opening braces leaves behind, with or without a
  platform written over them, exactly for flat templates: no closed pair of braces has an opening
  brace in front of the last character of its name (`OrderIrrelevantForMatchesExactly`). So
  `{a{}b}` is harmless, and `{a{b}}` and `{a{b{}` are not.
- A repeated wildcard name keeps its last capture. An alternating template leads back to every
  reference that it matches exactly when its names are distinct (`DistinctNamesExactly`); `{a}-{a}`
  turns `x-y` into `y-y` (`RepeatedNameWitness`).
- A follower can return before any build has begun, in the gap between its leader's `LoadOrStore`
  and `Lock` (`FollowerInTheGap`), and if it then looks before the leader has published, it is told
  that there is no manifest (`FollowerInTheGapFindsNothing`). In general a request is told so exactly
  when it did not fail, its manifest file was not there at the start, and no build has put one there
  by then (`NotFoundExactly`). A follower that gets the read lock after a successful build never is.
- A build reads its reference anew with `name.ParseReference`, which normalises some names, while a
  request is served from the path that it names itself. The leader of a successful build is served
  when the reference is kept, and otherwise only if the file comes from elsewhere
  (`LeadersAreServedExactly`).
- A directory source puts a file below k directories into the image 2^k times, at every path that
  keeps some of these directories (`CollectedExactly`). Two files with the same base name therefore
  end up at the same path, and with the same mutate in the same link file. The link cache's
  assumption that equal links mean equal content holds for a directory source exactly when files of
  the tree with the same base name have the same content (`DirectoryLinksAreSoundExactly`,
  `TruthPerLinkExactly`), and without it a layer answers with another layer's digest
  (`SharedPathWitness`).

## Model

| member | source | states |
|---|---|---|
| PatternSyntax.ParseSegments | pkg/pattern/pattern.go:35-66 | the two index scans compute `Parse`, with its two errors |
| PatternSyntax.ParseThenRender | pkg/pattern/pattern.go:35-66 | a parsed template is canonical and prints as the template |
| PatternSyntax.RenderThenParse | pkg/pattern/pattern.go:35-66 | the text of every canonical segment list parses back to that list |
| PatternSyntax.CanonicalBeginning | pkg/pattern/pattern.go:38-64 | behind a canonical beginning parsing goes on as if the rest stood alone |
| PatternSyntax.ParseFailsExactly | pkg/pattern/pattern.go:55-60 | parsing fails exactly on texts that no canonical list prints as |
| PatternSyntax.ParseErrorMeans | pkg/pattern/pattern.go:55-60 | which error: a brace never closed, or an empty pair, behind a canonical beginning |
| PatternSyntax.ParsePattern | pkg/pattern/pattern.go:18-29 | a pattern without a colon is parsed with `:latest` behind it, any other as it is |
| PatternSyntax.ParsedPatternNotEmpty | pkg/pattern/pattern.go:18-29 | every parsed pattern has a first segment |
| PatternMatch.ScanTo | pkg/pattern/pattern.go:83-87 | a wildcard runs to the first occurrence of the next segment's text, or to the end |
| PatternMatch.MatchSegments | pkg/pattern/pattern.go:68-92 | the captures, and success when the text is used up; a nil map and failure once a literal is missing; no slice leaves its bounds |
| PatternMatch.TakeAllIsMatch | pkg/pattern/pattern.go:71-91 | the loop's left-to-right run succeeds exactly where `Match`, the recursion over the segments, does, with the same pieces |
| PatternMatch.MatchCharacterised | pkg/pattern/pattern.go:68-92 | success exactly on the texts that split along the segments, with the one and only split |
| PatternMatch.LastCaptureWins | pkg/pattern/pattern.go:80-88 | of several wildcards with one name the last decides |
| PatternMatch.OnlyNamesCaptured | pkg/pattern/pattern.go:69-88 | the map holds names of wildcards and pieces they took, nothing else |
| PatternGreedy.MatchIffSpelled | pkg/pattern/pattern.go:68-92 | for every pattern that ends in a wildcard, adjacent wildcards or not: success is the same as being spelled by texts that stop where the name of an adjacent wildcard first occurs |
| PatternGreedy.GreedyIsComplete | pkg/pattern/pattern.go:68-92 | those patterns: found whenever such texts spell the input, with the lexicographically shortest captures |
| PatternGreedy.MatchIffProduced | pkg/pattern/pattern.go:68-92 | for alternating patterns that end in a wildcard success is the same as being spelled by any texts |
| PatternGreedy.MatchIsProduced | pkg/pattern/pattern.go:68-92 | every match of any pattern spells the input |
| PatternGreedy.MatchFromWildcard | pkg/pattern/pattern.go:71-91 | up to any wildcard a pattern matches as if it ended there, and the rest works on what that wildcard would have captured |
| PatternGreedy.MatchWithTrailingLiteral | pkg/pattern/pattern.go:83-91 | a trailing literal matches exactly when its first occurrence in the open capture ends the input |
| PatternGreedy.TrailingLiteralMissesExactly | pkg/pattern/pattern.go:68-92 | the exact condition under which a text is missed |
| PatternGreedy.TrailingLiteralWitness | pkg/pattern/pattern.go:83-91 | `{a}-x` misses `foo-x-x` |
| PatternGreedy.PairMissesExactly | pkg/pattern/pattern.go:84-87 | two wildcards in a row behind and before alternating parts: the exact condition under which a text is missed |
| PatternGreedy.PairAtTheEnd | pkg/pattern/pattern.go:80-87 | two wildcards at the end of a pattern lose nothing |
| PatternGreedy.AdjacentWildcardsWitness | pkg/pattern/pattern.go:84-87 | `{a}{b}-{c}` parses, and misses `z-z`, which it spells |
| PatternOrder.PatternLess | pkg/pattern/pattern.go:94-116 | the loop with its early returns decides the priority: a single segment first, then a literal in front, then the longer literal at the first position where literals differ in length, then more segments |
| PatternOrder.LessExactly | pkg/pattern/pattern.go:94-116 | that priority, said position by position, is the order of the lemmas below |
| PatternOrder.LessIsAsymmetric | pkg/pattern/pattern.go:94-116 | irreflexive and asymmetric for all patterns |
| PatternOrder.LessIsTransitive | pkg/pattern/pattern.go:94-116 | transitive on alternating patterns |
| PatternOrder.IncomparableIsSameRank | pkg/pattern/pattern.go:94-116 | incomparable exactly when shape and literal lengths agree |
| PatternOrder.LessIsStrictWeakOrder | pkg/pattern/pattern.go:94-116 | what sorting asks of the comparison, on alternating patterns |
| PatternOrder.AlternationIsExact | pkg/pattern/pattern.go:94-116 | a pattern can be ordered together with all alternating ones exactly when it alternates |
| PatternOrder.CycleWitness | pkg/pattern/pattern.go:107-115 | three patterns in a cycle when wildcards stand side by side |
| PatternOrder.FilledTextParses | pkg/pattern/pattern.go:35-66 | a template with wildcards filled in parses to the merged segment list |
| PatternOrder.MoreSpecificWins | pkg/pattern/pattern.go:94-116 | filling any wildcards of an alternating pattern puts the result strictly in front |
| Substitute.ReplaceWithParams | pkg/pattern/action.go:45-50 | the result is that of some order of the map; on flat templates, of all placeholders at once |
| Substitute.ReplaceIsSubst | pkg/pattern/action.go:47 | one `ReplaceAll` on a flat template is one simultaneous substitution |
| Substitute.SubstTwice | pkg/pattern/action.go:45-50 | substituting twice is substituting once, and templates stay flat |
| Substitute.ReplaceEachIsSubst | pkg/pattern/action.go:45-50 | every order gives the simultaneous substitution |
| Substitute.OrdersDisagree | pkg/pattern/action.go:45-50 | for every template that is not flat, two named parameters and two orders that disagree |
| Substitute.OrderIrrelevantExactly | pkg/pattern/action.go:45-50 | for non-empty names without closing and values without opening braces, the order is irrelevant exactly for flat templates |
| RoundTrip.CapturesArePlain | pkg/pattern/rule.go:27-38 | names without a closing brace, and from a brace-free reference values without an opening one |
| RoundTrip.TemplateResolvesToReference | pkg/pattern/action.go:21-23 | a brace-free prefix plus the pattern's text resolves to the prefix plus the matched reference, in any order, when equal names captured equal texts |
| RoundTrip.DistinctTemplateResolvesToReference | pkg/pattern/action.go:21-23 | the same for patterns with distinct names |
| RoundTrip.ResolveBaseImage | pkg/pattern/rule.go:14-38 | from configuration to base image: a mirroring rule resolves every matching reference to prefix plus reference |
| RoundTrip.DistinctNamesExactly | pkg/pattern/action.go:45-50 | an alternating template leads back to all the references that it matches, in every order, exactly when its names are distinct |
| RoundTrip.RepeatedNameWitness | pkg/pattern/pattern.go:88 | `{a}-{a}` parses, matches `x-y`, and in every order turns into `y-y` |
| RoundTrip.NothingToResolve | pkg/pattern/pattern.go:83-91 | without alternation a pattern with a repeated name may match nothing at all |
| RoundTrip.OrderIrrelevantForMatchesExactly | pkg/pattern/action.go:32-50 | for the parameters that actions hold after a match, platform included, the order is irrelevant exactly for flat templates |
| Rules.NewRuleIsValid | pkg/pattern/rule.go:14-25 | every rule has a canonical, non-empty pattern |
| Rules.NewRuleMeans | pkg/pattern/rule.go:14-25 | a rule comes out exactly when the completed pattern parses, with its segments and the base image, mutates and platforms of the configuration |
| Rules.PlainPatternMatchesItself | pkg/pattern/pattern.go:18-29 | a configured pattern without braces matches the reference that it spells, with `:latest` for a missing tag, and no other |
| Rules.MatchRule | pkg/pattern/rule.go:27-38 | an action exactly on a match, with the captures, the reference and the rule |
| Rules.Action.GetBaseImage | pkg/pattern/action.go:21-23 | the base image template with the parameters filled in |
| Rules.Action.GetPlatforms | pkg/pattern/action.go:25-30 | no platforms means no filter |
| Rules.Action.GetMutates | pkg/pattern/action.go:32-43 | GOOS and GOARCH become the platform's operating system and architecture, `linux` and `amd64` without a platform, every other parameter stays; only known mutates come out, filled in |
| Rules.PlatformParamsExactly | pkg/pattern/action.go:35-41 | the parameters are exactly those |
| Rules.PlatformIsFilledIn | pkg/pattern/action.go:32-51 | a text with `{GOOS}` and `{GOARCH}` gets the operating system in the one place and the architecture in the other |
| Rules.PlatformOverwrites | pkg/pattern/action.go:35-41 | a platform written before leaves no trace |
| Rules.ReplaceMutateWithParams | pkg/pattern/action.go:52-74 | mutates without instructions are dropped, the others keep order and are filled in |
| Rules.FillMutatesExactly | pkg/pattern/action.go:52-74 | field by field: source, destination, model, working directory and model name are filled in, each from its own template, the mode is copied; exactly the known mutates, in their order |
| Rules.SortRules | pkg/handler/handler.go:86-88 | a permutation; when the patterns alternate, no rule has priority over one in front of it, and a rule stands in front of every rule whose wildcards it fills with text |
| Rules.SortedIsSpecificFirst | pkg/pattern/pattern.go:94-116 | a list in priority order has the more specific rule first |
| Rules.WithImageConfig | pkg/handler/handler.go:74-92 | the configurations that parse, sorted in the same sense |
| Rules.RulesOfExactly | pkg/handler/handler.go:74-84 | exactly the configurations that parse, in order, each rule saying all that its configuration says |
| Dispatch.PullRecoversNameAndTag | pkg/handler/handler.go:293-326 | a GET or HEAD of `/v2/NAME/manifests/TAG` recovers name and tag, whatever slashes the name has |
| Dispatch.OnlyPullsReachManifests | pkg/handler/handler.go:293-326 | only such paths reach the manifest handler |
| Dispatch.PullRecoversNameAndDigest | pkg/handler/handler.go:293-326 | the same for blobs: a GET or HEAD of `/v2/NAME/blobs/DIGEST` recovers name and digest |
| Dispatch.OnlyPullsReachBlobs | pkg/handler/handler.go:293-326 | only such paths reach the blob handler |
| Dispatch.OtherRoutes | pkg/handler/handler.go:293-309 | other methods are unsupported below `/v2/`, `/v2/` itself is the root, and nothing is found elsewhere |
| Dispatch.FindRule | pkg/handler/handler.go:342-349 | the first matching rule and its action, or none when none matches |
| Dispatch.FirstMatchIsMinimal | pkg/handler/handler.go:342-349 | in a sorted list no matching rule has priority over the first match |
| Dispatch.Serve | pkg/handler/handler.go:328-358 | digests are served by digest; otherwise not found exactly when no rule matches; else a match over which no matching rule has priority and which no matching rule is a filled-in form of |
| Dispatch.ServeConfigured | pkg/handler/handler.go:74-92 | the same from configuration to answer: no configuration that matches has priority over the one that answers, or is a filled-in form of it |
| SyncMap.FirstCallerWins | pkg/atomic/maps.go:49-55 | of any number of callers everyone is told the earlier value, or else that of the first caller with the same key, who alone is told that it stored |
| SyncMap.SyncMap.LoadOrStore | pkg/atomic/maps.go:49-55 | only the caller that finds nothing stores; everyone gets the value in force |
| SyncMap.SyncMap.Delete | pkg/atomic/maps.go:28-30 | removes the key and nothing else |
| SyncMap.SyncMap.LoadAndDelete | pkg/atomic/maps.go:40-46 | the value that was there, and the map without it |
| SyncMap.SyncMap.Swap | pkg/atomic/maps.go:58-64 | the value that was there, and the map with the new one |
| SyncMap.SyncMap.Size | pkg/atomic/maps.go:67-74 | the callback counts every key once |
| SyncMap.SyncMap.Keys | pkg/atomic/maps.go:77-84 | every key once, in any order |
| SingleFlight.StepKeepsInv | pkg/handler/handler.go:360-373 | the invariant of mutexes, map, followers and builds survives every step |
| SingleFlight.AtMostOneOwner | pkg/handler/handler.go:360-373 | at most one call per reference between winning and deleting; the map holds its mutex and nothing else |
| SingleFlight.DeleteRemovesOwnEntry | pkg/handler/handler.go:370-373 | the deferred delete removes the deleter's own entry |
| SingleFlight.NoReaderDuringBuild | pkg/handler/handler.go:362-373 | no follower holds a read lock while its leader holds the write lock |
| SingleFlight.ReadAfterLockIsReadAfterBuild | pkg/handler/handler.go:362-373 | a read lock after the leader's lock comes after build, delete and unlock |
| SingleFlight.EarlyReadersLeaveFirst | pkg/handler/handler.go:362-369 | followers in the gap before the lock have returned when the build begins |
| SingleFlight.WaitingLeaderStopsReaders | pkg/handler/handler.go:362-369 | a leader waiting for its write lock is not overtaken: until it unlocks nobody new gets the read lock |
| SingleFlight.SomeStepEnabled | pkg/handler/handler.go:360-373 | no deadlock, with pending writers blocking new readers |
| SingleFlight.StepsDecreaseWork | pkg/handler/handler.go:360-373 | every step decreases a measure over all calls |
| SingleFlight.RunsEnd | pkg/handler/handler.go:360-373 | runs are finite; at the end the map is empty and every requested reference has had a build |
| SingleFlight.FollowerInTheGap | pkg/handler/handler.go:362-369 | a run in which a follower returns although nothing has been built |
| RequestRuns.DoKeepsFit | pkg/handler/serve.go:47-65 | requests, calls, builders and store keep fitting together in every move |
| RequestRuns.AnswersMean | pkg/handler/serve.go:47-65 | failure exactly for leaders of failed builds; a manifest that was there at the start, or the own manifest of a finished build under the requested name and tag |
| RequestRuns.FailureHasReason | pkg/handler/serve.go:57-61 | a request fails only by a move in which its own build gives up or comes to an empty layer |
| RequestRuns.AnswersStayPullable | pkg/handler/serve.go:21-65 | whoever is answered with a manifest finds every digest it leads to as a blob, then and later |
| RequestRuns.NotFoundExactly | pkg/handler/serve.go:53-64 | not found exactly when the request did not fail, the file was not there at the start, and no build has written it |
| RequestRuns.NotFoundForKeptReferences | pkg/handler/serve.go:53-64 | with kept references: exactly when no build of the reference has come to a good end |
| RequestRuns.KeepsExactly | pkg/handler/handler.go:408-413 | a reference is kept exactly when parsing `NAME:TAG` gives back name and tag, and the tag is no digest |
| RequestRuns.LeadersAreServedExactly | pkg/handler/serve.go:53-64 | a leader whose build succeeded gets a manifest when its reference is kept, and without other sources only then |
| RequestRuns.PublishedMeansNoBuild | pkg/handler/serve.go:53-55 | a request that looks after publication makes no call and gets a manifest |
| RequestRuns.FollowersOfSuccessAreServed | pkg/handler/serve.go:53-64 | a follower with the read lock after a successful build gets a manifest |
| RequestRuns.SomeRequestMoves | pkg/handler/serve.go:47-65 | while a request is unanswered some request can move |
| RequestRuns.RunsAreShort | pkg/handler/serve.go:47-65 | with n requests that have planned p store operations at most 8n + 2p moves |
| RequestRuns.RequestsAreAnswered | pkg/handler/serve.go:47-65 | a run cannot go on exactly when every request is answered |
| RequestRuns.FollowerInTheGapFindsNothing | pkg/handler/handler.go:362-369 | for any two requests for one reference, a run in which the second is told that there is no manifest, with nothing built and nothing failed |
| BlobStore.BlobNames | pkg/storage/local.go:18-27 | bare and prefixed digests name one file, `sha256:` and the digest; different digests different files |
| BlobStore.FilingOnlyAdds | pkg/storage/local.go:179-180 | filing a blob under its digest changes no other blob |
| BlobStore.ReadyIsStable | pkg/storage/local.go:54-88 | what other builds add does not disturb a build's order of writes |
| BlobStore.ImageReady | pkg/storage/local.go:54-88 | layers, configuration, manifest, tag: the tag finds everything |
| BlobStore.IndexComplete | pkg/storage/local.go:45-52 | an index over complete children is complete |
| BlobStore.BuildReady | pkg/handler/handler.go:446-504 | so for every single or multi-platform build, on any store |
| StoreRuns.HitIsTheLayer | pkg/storage/local.go:127-141 | a file of the right name and size is the layer |
| StoreRuns.PublishKeepsClosed | pkg/atomic/files.go:12-65 | the rename of a finished temporary file only adds, and keeps every tag complete |
| StoreRuns.StepKeepsInv | pkg/storage/local.go:126-227 | every file operation of any build keeps the store closed and all other builds ready |
| StoreRuns.StepKeepsTags | pkg/storage/local.go:214-227 | a tag holds the manifest of a build that has ended, or what it held at the start, after every file operation |
| StoreRuns.StoreIsAlwaysClosed | pkg/storage/local.go:45-227 | in every state between any two file operations of any builds, every tag is complete and every blob has its digest |
| StoreRuns.PublishedStays | pkg/storage/local.go:126-227 | blobs never change, tags never disappear |
| StoreRuns.FinishedBuildIsServed | pkg/storage/local.go:214-227 | a build that ended without failing put its own manifest under its tag by its last rename; the tag stays, complete, and keeps that manifest unless another build has the same tag |
| StoreRuns.TurnFailsExactly | pkg/storage/local.go:126-188 | a file operation makes its build fail exactly when the build gives up or the layer to publish is empty |
| StoreRuns.FailureHasReason | pkg/storage/local.go:126-188 | a failed build had such a step in its run |
| StoreRuns.OnlyGivingUpFails | pkg/storage/local.go:175-177 | so a build without empty layers fails only by giving up, whatever the others do |
| StoreRuns.PullFindsEveryBlob | pkg/handler/serve.go:21-45 | every digest met from a served manifest leads to a blob with that digest, then and later |
| LocalPusher.LocalPusher.SaveLayer | pkg/storage/local.go:126-188 | it fails exactly for an empty layer that is no hit; a hit (known digest, file of that name and size) changes nothing, and any other layer is filed under its digest |
| LocalPusher.LocalPusher.SaveManifest | pkg/storage/local.go:214-227 | the blob always; NAME/TAG/manifest.json exactly for a name and a tag that is no digest |
| LocalPusher.LocalPusher.PushImage | pkg/storage/local.go:54-88 | succeeds on every store when no layer is empty, and fails exactly at an empty layer that is not in place; then layers, configuration and manifest are filed under their digests and the tag holds the manifest; on failure no tag changes; the store stays closed |
| LocalPusher.LocalPusher.PushImageWithIndex | pkg/storage/local.go:90-124 | the same, and never a tag |
| LocalPusher.LocalPusher.PushImageIndex | pkg/storage/local.go:45-52 | index blob, and the tag for a name and a tag that is no digest |
| LocalPusher.ImageTags | pkg/storage/local.go:54-88 | one tag more on success, none on failure |
| LocalPusher.LayersPushExactly | pkg/storage/local.go:54-70 | the layers of an image can be pushed exactly when each of them is not empty or found in place at the start |
| LocalPusher.PushReported | pkg/storage/local.go:54-88 | the operations of a push do what `PushImage` promises |
| LocalPusher.PerformIsAfter | pkg/storage/local.go:54-124 | successful operations leave exactly the planned blobs, hits included |
| LocalPusher.PushedImageIsComplete | pkg/storage/local.go:54-88 | a pushed image is there with all its parts |
| LinkCodec.LinkRoundTrip | pkg/builder/cache_file_layer.go:85-113 | a link file reads back as what was written |
| LinkCodec.LinkText | pkg/builder/cache_file_layer.go:85-88 | the text is digest, diff ID and size, one space apart |
| LinkCache.CacheFileLayer.Digest | pkg/builder/cache_file_layer.go:30-69 | answer, remembered fields and link file as specified, in all branches |
| LinkCache.CacheFileLayer.Size | pkg/builder/cache_file_layer.go:71-76 | the remembered size when positive, else the stream's |
| LinkCache.CacheFileLayer.DiffID | pkg/builder/cache_file_layer.go:78-83 | the remembered diff ID when set, else the stream's |
| LinkCache.AnswersAreTrue | pkg/builder/cache_file_layer.go:30-83 | after any uses on any layers, restarts included, every answer is the true one |
| LinkCache.LinksNeverChange | pkg/builder/cache_file_layer.go:33-51 | a written link is never changed or removed |
| LinkCache.WrittenLinkAnswersLater | pkg/builder/cache_file_layer.go:55-61 | once written, a link answers the digest of every later layer with that link, unconsumed |
| LinkCache.LinkedLayerAnswersAll | pkg/builder/cache_file_layer.go:55-83 | after `Digest` found the link: diff ID, and the size exactly when positive, without consuming |
| LinkCache.AnsweredExactlyWhen | pkg/builder/cache_file_layer.go:30-83 | when each question is answered at all |
| LinkCache.SharedPathWitness | pkg/builder/cache_file_layer.go:55-61 | different contents behind one link path give a wrong digest |
| LinkKeys.FileKeysAgreeExactly | pkg/handler/mutates.go:107-109 | file layers share a link exactly when mount, source, destination and mode agree |
| LinkKeys.OllamaKeysAgreeExactly | pkg/handler/mutates.go:111-113 | model layers share a link exactly when mount, model and working directory agree; the model name plays no part |
| LinkKeys.KindsNeverShare | pkg/handler/mutates.go:107-113 | file and model layers never share a link |
| LinkKeys.DirectoryLinksAreSoundExactly | pkg/handler/mutates.go:58-72 | for a directory source, equal links mean equal content exactly when equal base names do |
| LinkKeys.DirectoryLinksTellFilesApartExactly | pkg/handler/mutates.go:58-72 | and equal files exactly when base names differ |
| LinkKeys.TruthPerLinkExactly | pkg/builder/cache_file_layer.go:30-69 | there is one truth per link, as the cache needs, exactly when equal base names mean equal content |
| RuleCache.RuleHandler.ResetImageCR | pkg/handler/handler.go:177-181 | forgets the cached list |
| RuleCache.RuleHandler.GetImageRules | pkg/handler/handler.go:189-218 | static rules without a store, the cached list if any, else static and store rules, sorted |
| RuleCache.RulesOfPermutation | pkg/handler/handler.go:197-209 | the listing order does not matter for which rules there are |
| RuleCache.UpToDateIsUnique | pkg/handler/handler.go:197-214 | being up to date fixes the rules up to order |
| RuleCache.DoKeepsInv | pkg/handler/handler.go:132-144 | every step of watcher and readers keeps the lag within the pending resets |
| RuleCache.RulesLagAtMostPendingResets | pkg/handler/handler.go:177-218 | cached rules, and rules being computed or returned, trail the store by at most the pending resets |
| RuleCache.FreshWithoutPendingReset | pkg/handler/handler.go:177-218 | stale cached rules mean a pending reset; with none pending the answer is up to date |
| IndexRebuild.MutateImage | pkg/handler/mutates.go:20-36 | all mutates in order, or the first failure; unknown ones always fail |
| IndexRebuild.AppliedInOrder | pkg/handler/mutates.go:20-36 | the result is reached exactly through images each of which is the one before it with the next mutate applied |
| IndexRebuild.ImageIndex.ClearImage | pkg/builder/image_index.go:22-26 | the index lists nothing |
| IndexRebuild.ImageIndex.AppendImage | pkg/builder/image_index.go:40-68 | one entry more, with the image's digest and platform |
| IndexRebuild.MutateEntry | pkg/handler/handler.go:462-470 | the entry's own image, mutated with GOOS and GOARCH standing for the entry's own platform; an error exactly tells that there is no image, or no such result |
| IndexRebuild.ChildIsBuiltFor | pkg/handler/handler.go:462-470 | the child of an entry is exactly its base image mutated for its own operating system and architecture |
| IndexRebuild.BuildChild | pkg/handler/handler.go:462-475 | one child from the captures, with GOOS and GOARCH standing for the entry's own platform; complete in the store; no tag; never an unknown mutate; the push fails only with an empty layer |
| IndexRebuild.RebuildIndex | pkg/handler/handler.go:426-486 | the published index lists, in base order, exactly the entries with a platform that agrees with some configured one in operating system and architecture, or all with a platform when none is configured, each built for its own; the store operations are those of the planned multi-platform build, or a part of them; failing writes no tag and means that an entry cannot be built or a layer is empty; the store stays closed |
| IndexRebuild.ListedExactly | pkg/handler/handler.go:446-460 | the entries of the index by position in the base, with no reference to the filter functions |
| IndexRebuild.BuildSingle | pkg/handler/handler.go:488-504 | the same for a single image |
| DirWalk.Walk | pkg/builder/files/files.go:120-141 | the appending callback collects `Collect` |
| DirWalk.TarDirToDir | pkg/builder/files/files.go:118-146 | a root that cannot be listed gives nothing, and no error |
| DirWalk.CollectFailsExactly | pkg/builder/files/files.go:124-126 | an error exactly when something below the root cannot be read |
| DirWalk.CollectedExactly | pkg/builder/files/files.go:118-146 | as a multiset: for every file one entry per subsequence of its directories |
| DirWalk.EntriesOfOneFile | pkg/builder/files/files.go:118-146 | 2^k entries for a file below k directories, all reading that file |
| DirWalk.EveryFileAtItsPath | pkg/builder/files/files.go:118-146 | every file at its relative path, and every entry reads a file of the tree |
| DirWalk.PathsTellFilesApartExactly | pkg/builder/files/files.go:129-136 | equal paths mean equal files exactly when base names differ |

## Left out

- Rules.SortRules: `sort.Slice` appears as an insertion sort with the contract that sorting has; for patterns that do not alternate only the permutation is promised, since the comparison is then no strict weak order.
- RoundTrip.TemplateResolvesToReference: that equal names captured equal texts is sufficient, not necessary; captures that differ can spell the same text by coincidence.
- LocalPusher.LocalPusher.SaveLayer: writes that fail half-way are not modelled; a build may give up before any rename, but a rename publishes a complete file (`WriteFileWithReader` renames even after a copy error).
- RequestRuns.AnswersMean: the plan of a build is fixed when its request arrives; what the base image is when the build begins, and whether it is there at all, is in the choice of the plan and in giving up.
- StoreRuns.StoreIsAlwaysClosed: assumes that layers are truthful about their digests (see `LinkCache`) and that manifests describe their images.
- LinkCodec.LinkRoundTrip: `fmt.Sscanf` is modelled on texts with single separating spaces, the form that is written; texts of other forms are read more strictly than `Sscanf` reads them.
- `path.Join` cleaning: blob and manifest files are named relative to their directories, and mount paths are taken as already clean.
- `name.ParseReference` is a parameter: any function from the requested reference to a repository and a tag.
- Requests answered through a storage registry (`forwardBlob`, `forwardManifest`, the remote puller and pusher), and writing HTTP responses.
- The registry-credentials cache: its watcher is never started.
- `ImageIndex.RemoveImage`, which nothing calls, and `SyncMap.Range`, `Values` and `IsEmpty`, which repeat `Keys`.
- The tar stream of a layer and the remote fetch of Ollama models.
- Remote file sources and single local files (`tarRemote`, `tarFileInDir`), which only build one value.
- Symbolic links and files that change during a walk.
