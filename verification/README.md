# Verified models of the build engine

The build engine schedules package builds, resolves profiles and packages, publishes the status of
its builds and talks to a few helper processes. This project models the logic of those parts in
Dafny and proves what they promise. `dafny verify dfyconfig.toml` checks everything.

- `RedundantDeps`: the search for the path whose weakest dependency is strongest, and the report of
  redundant dependencies built on it.
- `CiCycle`: the depth-first search that refuses a cyclic package graph.
- `JobQueue`: the shared queue and its workers as a state machine of any number of workers; the
  methods of `LocalJobQueue` are its critical sections.
- `KeyedLocks`: the table of locks, and builds that take sets of them in sorted order, as a state
  machine of any number of builds on any number of threads.
- `GhostExchange`: the request/reply exchange with the suggestion helper over a byte stream. The
  client's `Valid()` holds between any two calls and says that every accepted reply is the answer to
  the request it was accepted for, over the whole history of helper incarnations.
- `Profiles`, `Resolver`, `Saturation`: merging profiles, following `extends`, expanding abstract
  package names, and planning the saturation bundle.
- `Archive`, `Conformance`, `LanguageTable`, `LanguagePackages`: what an archive index says, the check
  of a base against it, the file of language packages, and the generator of that file.
- `BuildStatus`: the bounded status file against the unbounded log of outcomes.
- `PoCatalog`: the gettext catalogue writer and reader.
- `WebSocket`: frames by sections 5.2 and 5.3 of RFC 6455, and the reassembly buffer.
- `Common`, `Text`: sequences, and the string operations the file formats are made of.

What is assumed of the environment is written as preconditions: job items are distinct, the helper
answers each complete line with one line and says nothing else (it may do so in pieces of any size,
late or never), the status clock never reads as the empty string, and the archives and wording the
generator prints contain none of its file format's own punctuation.

Properties that are false as one would first state them, with what holds instead:

- `deep_merge` is not associative when a key changes kind: `Profiles.GroupingMatters` is a
  counterexample and `Profiles.AssociativeExactlyWhen` the exact condition.
- A clean report does not vouch for every item: the key of one suite's entry, asked for on another
  suite, is out of its reach (`Conformance.OtherSuitesEntryIsNotChecked`). `Conformance.CoveredExactly`
  says for which items it vouches, and every mapped role is among them. Such an item can only come
  from a bundle: schema/profile.schema.json:16 allows no `@` in a package reference of a profile,
  while profiles/bundles.yml is only required to hold strings (tools/render_manifest.py:421-426).
- A package written for a language need not exist: the generator appends what follows the language
  in a template unchecked, as in `language-pack-${LANG}-base` (bases/ubuntu/packages.map:29).
  `LanguagePackages.InstallableExactlyWithoutSuffix` says which templates are safe on every archive, and
  `LanguagePackages.GeneratedIsCleanExactly` when a template is clean against given archives. The round
  trip of the table holds for both kinds.
- A catalogue whose texts have a raw line separator (U+0085, U+2028 or U+2029) cannot be read back:
  `PoCatalog.CatalogRoundTrip` is the exact condition.
- `since` is not always the date on which the last run of equal states began: an interrupted run inside
  a failing streak restarts it. `BuildStatus.InterruptionRestartsSince` is such a run and
  `BuildStatus.StreakIsPlainExactly` the exact condition.

Concurrency is modelled by interleaving atomic steps. A step of `JobQueue` is a critical section
under the condition variable, or one outcome of `build_one`; a step of `KeyedLocks` takes or releases
one lock; each method of `StatusUpdater` is one step under its lock.

## Model

| member | source | states |
|---|---|---|
| `RedundantDeps.BestPath` | packages/_lib/check-redundant-deps.py:40-71 | The search ends and returns the maximum, over all walks that avoid the excluded edge, of the weakest level on the walk; 0 exactly when no such walk exists (or start is the target); and a simple path of that strength which no walk of that strength is shorter than. |
| `RedundantDeps.Extend` | packages/_lib/check-redundant-deps.py:63-69 | The neighbour loop adds exactly the one-package prolongations that revisit nothing and avoid the excluded edge, each once, and never more than there are unvisited packages. |
| `RedundantDeps.FindRedundant` | packages/_lib/check-redundant-deps.py:103-110 | A direct dependency is reported if and only if another walk exists whose every edge has at least its level; each is reported once, with such a path as evidence. |
| `RedundantDeps.SimplePathsSuffice` | packages/_lib/check-redundant-deps.py:66-67 | Never revisiting a package loses nothing: what beats every simple path beats every walk. |
| `RedundantDeps.CutLoops` | packages/_lib/check-redundant-deps.py:65-67 | Cutting the loops out of a walk gives a simple walk between the same ends, no longer and no weaker. |
| `RedundantDeps.BottleneckIsEveryEdge` | packages/_lib/check-redundant-deps.py:104-108 | Comparing a level with the strength of a path decides whether every edge of the path has at least that level. |
| `RedundantDeps.Examine` | packages/_lib/check-redundant-deps.py:106-110 | One direct dependency is found redundant if and only if the rule makes it so, with a path that meets the rule. |
| `RedundantDeps.RedundantIsStrong` | packages/_lib/check-redundant-deps.py:103-110 | The comparison the tool makes with the result of the search is equivalent to the redundancy rule it states. |
| `RedundantDeps.PopArrived` | packages/_lib/check-redundant-deps.py:56-61 | Taking a path that has arrived off the queue, with or without replacing the best, loses no simple path. |
| `RedundantDeps.PopExpanded` | packages/_lib/check-redundant-deps.py:56-69 | Replacing a path by its extensions loses no simple path: each completion goes through one of them. |
| `RedundantDeps.ExpansionIsLighter` | packages/_lib/check-redundant-deps.py:55-69 | The termination measure: a path weighs more than all its possible extensions together, so the queue only gets lighter. |
| `CiCycle.InternalRelationships` | packages/_lib/verify-ci-package-needs.py:87-104 | The dependency graph keeps, of the names a project lists, exactly those that are other projects; every edge stays inside the graph. |
| `CiCycle.CycleCheck.Visit` | packages/_lib/verify-ci-package-needs.py:170-179 | One depth-first visit ends; raising exhibits a cycle through the recursion stack, and returning finishes the package after all its dependencies and leaves the stack as it was. |
| `CiCycle.VerifyAcyclic` | packages/_lib/verify-ci-package-needs.py:169-181 | The search over all packages raises if and only if the graph has a cycle; otherwise the finishing order is a topological order of every package. |
| `CiCycle.WalkDescends` | packages/_lib/verify-ci-package-needs.py:170-179 | Along any walk, positions in a dependencies-first order strictly decrease. |
| `CiCycle.TopologicalMeansAcyclic` | packages/_lib/verify-ci-package-needs.py:169-181 | A graph with a topological order has no cycle, so a normal return is never wrong. |
| `CiCycle.ActiveClosesCycle` | packages/_lib/verify-ci-package-needs.py:171-172 | Meeting an active package again closes a cycle, so a raise is never wrong. |
| `JobQueue.LocalJobQueue.Take` | tools/job_queue.py:62-71 | One pass of take hands out the first pending item, reports the end exactly when nothing is pending or in flight, and otherwise waits without a change. |
| `JobQueue.LocalJobQueue.MarkRunning` | tools/job_queue.py:73-75 | The attempt count of the item, and nothing else, goes up by one. |
| `JobQueue.LocalJobQueue.RecordResult` | tools/job_queue.py:77-81 | The item leaves flight and its result is stored; no other item is touched. |
| `JobQueue.LocalJobQueue.Requeue` | tools/job_queue.py:83-87 | The item leaves flight and goes to the end of the pending items. |
| `JobQueue.StartKeeps` | tools/job_queue.py:55-60 | run_parallel starts in a state that satisfies the whole invariant. |
| `JobQueue.StepPartition` | tools/job_queue.py:62-87 | Every step of every worker keeps the items the disjoint union of pending, held and recorded, with in-flight counting the held ones. |
| `JobQueue.StepCounts` | tools/job_queue.py:98-114 | Every step keeps each item's attempt and build counts in agreement with where the item is, at most two attempts in all. |
| `JobQueue.StepKeeps` | tools/job_queue.py:98-130 | Every step of any worker keeps the invariant: places, counts, callbacks, and no exit before the queue is drained. |
| `JobQueue.RunKeeps` | tools/job_queue.py:98-130 | Every run, over any number of workers and any interleaving, stays within the invariant. |
| `JobQueue.CompletedRun` | tools/job_queue.py:98-130 | When all workers have exited, every item has exactly one result, was attempted once or twice, its result is what its last build returned or the crash note after exactly two crashes, and on_result was called exactly once with it. |
| `JobQueue.AllExited` | tools/job_queue.py:117-130 | Once every worker has exited, the recorded keys are all the items and every record is explained by the builds that ran. |
| `JobQueue.DrainedIsStable` | tools/job_queue.py:62-71 | "Nothing pending and nothing in flight" stays true under every step once it is reached. |
| `JobQueue.NeverWedged` | tools/job_queue.py:62-71 | While a worker lives, some worker has a step other than waiting: no reachable state has every live worker waiting. |
| `JobQueue.StuckRunIsComplete` | tools/job_queue.py:98-130 | A run in which nobody can do more than wait is over: every worker has exited, every item has its explained result, and each was reported once. |
| `JobQueue.StepDecreases` | tools/job_queue.py:98-114 | A measure over attempts left and worker phases drops with every step that is not waiting and never rises. |
| `JobQueue.RunsAreBounded` | tools/job_queue.py:117-130 | A run over n items and k workers takes at most 12 n + k steps that are not waiting. |
| `KeyedLocks.StringOrder` | tools/build_packages.py:586 | Comparing strings is total and asymmetric. |
| `KeyedLocks.KeyOrder` | tools/build_packages.py:586 | Comparing keys, tuples of strings, is total and asymmetric. |
| `KeyedLocks.KeyTransitive` | tools/build_packages.py:586 | Comparing keys is transitive. |
| `KeyedLocks.Sorted` | tools/build_packages.py:586 | Sorting a set of keys lists each of them once, in increasing order. |
| `KeyedLocks.LockTable.LockFor` | tools/build_packages.py:179-185 | A key always gets the same lock, a new key gets a new lock, and no lock serves two keys. |
| `KeyedLocks.BuildIsDisciplined` | tools/build_packages.py:586-599 | Every section of a build takes its locks in increasing order, and the last one takes the locks of all keys of its recipe. |
| `KeyedLocks.StepKeeps` | tools/build_packages.py:595-599 | Every step keeps lock ownership in agreement with how far each build is. |
| `KeyedLocks.MutualExclusion` | tools/build_packages.py:595-599 | Two builds never hold one lock at the same time. |
| `KeyedLocks.SharedKeyIsExclusive` | tools/build_packages.py:595-599 | In every run, two recipes whose key sets intersect never run prebuild.sh at the same time. |
| `KeyedLocks.OwnerIsAhead` | tools/build_packages.py:586-599 | Whoever owns the lock a build waits for can itself only wait for a lock higher in the order. |
| `KeyedLocks.FollowOwners` | tools/build_packages.py:586-599 | From any active build, following the owners of wanted locks ends at a build that can take its own next step, without a skip, an error or a cancellation. |
| `KeyedLocks.NeverDeadlocked` | tools/build_packages.py:586-599 | While a build is unfinished and the pool has a worker, some build can take its own next step. |
| `KeyedLocks.RunIsBounded` | tools/build_packages.py:1105-1116 | A run is no longer than the steps its builds have. |
| `KeyedLocks.EveryBuildFinishes` | tools/build_packages.py:1114-1130 | For any recipes, number of workers and interleaving, and any builds that fail or are cancelled, a run in which no build has a next step has finished or dropped every build and released every lock, and every run is bounded. |
| `GhostExchange.HearRestOfLine` | packages/synos-bash-guess-command/upstream/native/synos_ghost.c:431-436 | However a request line is cut into pieces, the helper hears one line and owes one answer. |
| `GhostExchange.PairedUpAppend` | packages/synos-bash-guess-command/upstream/native/synos_ghost.c:420-483 | A reply that answers its own request, after those asked before it, keeps the whole log of exchanges paired. |
| `GhostExchange.Client.StartDaemon` | packages/synos-bash-guess-command/upstream/native/synos_ghost.c:268-362 | A helper that is there is kept; a new one has been told nothing and owes nothing. |
| `GhostExchange.Client.ForceStop` | packages/synos-bash-guess-command/upstream/native/synos_ghost.c:97-106 | Giving an incarnation up restores the invariant from any state the helper was left in. |
| `GhostExchange.Client.PrewarmFresh` | packages/synos-bash-guess-command/upstream/native/synos_ghost.c:253-257 | After a failure the client has a fresh incarnation or none. |
| `GhostExchange.Client.Exchange` | packages/synos-bash-guess-command/upstream/native/synos_ghost.c:420-483 | On success the buffer holds, NUL-terminated and within capacity, exactly the answer to this request, for any chunking; on failure no incarnation that took part is kept; over every run each accepted reply is paired with its own request. |
| `GhostExchange.Client.SendLine` | packages/synos-bash-guess-command/upstream/native/synos_ghost.c:431-451 | The send loop reports success only after the helper heard exactly the request line. |
| `GhostExchange.Client.ReceiveLine` | packages/synos-bash-guess-command/upstream/native/synos_ghost.c:453-482 | The receive loop reports success only with the whole reply line in the buffer, NUL-terminated, and nothing left unread. |
| `GhostExchange.Client.Query` | packages/synos-bash-guess-command/upstream/native/synos_ghost.c:499-527 | The suggestion afterwards is the one in the helper's answer to this very line, or none; an older one never survives. |
| `GhostExchange.FindByte` | packages/synos-bash-guess-command/upstream/native/synos_ghost.c:469 | memchr gives the first occurrence, or says there is none. |
| `GhostExchange.HexEncode` | packages/synos-bash-guess-command/upstream/native/synos_ghost.c:371-388 | A line is encoded in full, or refused exactly when its encoding would not fit. |
| `GhostExchange.HexDecode` | packages/synos-bash-guess-command/upstream/native/synos_ghost.c:398-418 | The loop decodes two digits at a time and fails on an odd length or at the first byte that is no digit. |
| `GhostExchange.ReadSuggestion` | packages/synos-bash-guess-command/upstream/native/synos_ghost.c:515-526 | The suggestion read from the buffer after an exchange is the first field of its reply, decoded, unless empty or with a control character. |
| `GhostExchange.HexRoundTrip` | packages/synos-bash-guess-command/upstream/native/synos_ghost.c:371-418 | Decoding an encoded text gives the text back. |
| `GhostExchange.UnhexDomain` | packages/synos-bash-guess-command/upstream/native/synos_ghost.c:390-418 | Decoding succeeds on exactly the even-length strings of hexadecimal digits, of either case. |
| `GhostExchange.SuggestionRoundTrip` | packages/synos-bash-guess-command/upstream/native/synos_ghost.c:512-526 | A suggestion encoded in the first field of a reply is the one offered, unless it is empty or has a control character. |
| `GhostExchange.QueryIsLine` | packages/synos-bash-guess-command/upstream/native/synos_ghost.c:507-511 | Whatever was typed, the request is exactly one line. |
| `Profiles.DeepMerge` | tools/render_manifest.py:120-134 | The copying loop computes the merge, key by key and recursively. |
| `Profiles.MergedByPath` | tools/render_manifest.py:120-134 | At every path of keys: a scalar or list of the override wins, a list under an appended key keeps what was before it, what the override does not mention stays, and below a scalar or list of the override nothing is left. |
| `Profiles.EmptyIsIdentity` | tools/render_manifest.py:120-134 | The empty mapping is a two-sided identity of deep_merge. |
| `Profiles.MergeIsIdempotent` | tools/render_manifest.py:120-134 | Merging a tree with itself changes nothing, including lists with repeated items. |
| `Profiles.AssociativeExactlyWhen` | tools/render_manifest.py:120-134 | The grouping of three merges does not matter if and only if at no key the middle tree has another kind while the outer two could be merged and the last has not absorbed the first. |
| `Profiles.AbsorbedExactly` | tools/render_manifest.py:120-134 | Merging one value into another changes nothing if and only if the other has all its keys, and its appended lists go on from the first's with new items only. |
| `Profiles.MergeIsAssociative` | tools/render_manifest.py:120-134 | On kind-consistent trees deep_merge is associative. |
| `Profiles.GroupingMatters` | tools/render_manifest.py:120-134 | Three trees for which it is not: a scalar between two mappings. |
| `Profiles.ResolveIsCorrect` | tools/render_manifest.py:137-153 | resolve_profile ends on every finite set of files; reports a cycle if and only if following extends revisits an id; and otherwise returns the duplicate-free parent-first chain with the left fold of deep_merge over its bodies, or a file on the way that does not load. |
| `Profiles.ResolveWalks` | tools/render_manifest.py:137-153 | Every outcome of the recursion is explained by one walk along extends. |
| `Profiles.OverridesAreOneMoreDescendant` | tools/render_manifest.py:966-969 | The overrides of a manifest act exactly as one more profile that extends the chosen one. |
| `Common.AppendItems` | tools/render_manifest.py:126-130 | The loop that appends only new items computes the order-preserving deduplicating append. |
| `Common.AppendNewAssociative` | tools/render_manifest.py:126-130 | The deduplicating append is associative. |
| `Common.AppendAllNew` | tools/render_manifest.py:126-130 | The append keeps every item if and only if each is new to the list and to the items before it. |
| `Common.FirstOccurrences` | tools/render_manifest.py:474-476 | Appending only what is new keeps the first occurrence of each item, in order, and nothing else. |
| `BuildStatus.StatusUpdater.Queue` | tools/build_status.py:495-496 | The pair is queued and keeps its outcomes, no other pair changes, and an upload happens exactly when the pair was not queued already. |
| `BuildStatus.StatusUpdater.Start` | tools/build_status.py:498-499 | The pair is testing and keeps its outcomes, no other pair changes, and an upload happens exactly when the pair was not testing already. |
| `BuildStatus.StatusUpdater.RecordResult` | tools/build_status.py:501-503 | The pair shows the outcome, which is the newest of its history, no other pair changes, and an upload happens exactly when the last outcome on record was of another state or there was none. |
| `BuildStatus.StatusUpdater.ResolveInterrupted` | tools/build_status.py:505-516 | Exactly the pairs that were testing are touched and show an interrupted run, every other pair is unchanged, and an upload happens exactly when there were any. |
| `BuildStatus.StatusUpdater.Published` | tools/build_status.py:465-516 | After any calls of the updater, on any file that agreed with an earlier log, every record agrees with the full log of its pair. |
| `BuildStatus.FileAgreesWithLog` | tools/build_status.py:325-435 | Over every sequence of steps, from an empty file or one that agrees with an earlier log, the stored history is the last ten entries of the full log, since is the date on which the current streak of the full log began, and the state is a live one or that of the last outcome. |
| `BuildStatus.StepAgrees` | tools/build_status.py:325-442 | Every step, on this pair or another, keeps a record in agreement with the full log of its pair. |
| `BuildStatus.RecordAgrees` | tools/build_status.py:359-409 | An outcome keeps a record in agreement with the log it lengthens, and counts as a change exactly when its state differs from the last one logged. |
| `BuildStatus.InterruptAgrees` | tools/build_status.py:427-435 | Resolving an interrupted run appends a failure and always restarts the streak. |
| `BuildStatus.LiveAgrees` | tools/build_status.py:325-356 | Going live adds no outcome and keeps since and history. |
| `BuildStatus.StreakAfter` | tools/build_status.py:385-386 | One more outcome starts a streak if its state is new or it is an interruption, and otherwise continues the last one. |
| `BuildStatus.StreakIsPlainExactly` | tools/build_status.py:427-435 | The streak is the last run of outcomes of one state if and only if no outcome of that run after its first is an interruption. |
| `BuildStatus.SinceIsPlain` | tools/build_status.py:385-386 | Over every run in which no later outcome of the last run of equal states is an interruption, since is the date that run of equal states began. |
| `BuildStatus.InterruptionRestartsSince` | tools/build_status.py:434 | A failure and then an interrupted build: both outcomes are failures, and since is the date of the second. |
| `BuildStatus.LastEntriesAppend` | tools/build_status.py:401 | Truncating after each outcome forgets exactly what truncating the whole log forgets. |
| `BuildStatus.ResolveAt` | tools/build_status.py:412-442 | After resolve_interrupted nothing is testing, each stuck pair was rewritten, and every other record is untouched. |
| `BuildStatus.SuccessWasObserved` | tools/build_status.py:359-409 | A record shows success only if some build of that pair reported success. |
| `BuildStatus.DifferentPairsCommute` | tools/build_status.py:310-322 | Steps on different (entry, base) pairs commute. |
| `PoCatalog.PoEntries` | packages/synos-btrfs-snapshots-manager/upstream/scripts/check-i18n.py:85-119 | The line loop computes the reading of a catalogue line by line. |
| `PoCatalog.WriteCatalog` | packages/synos-btrfs-snapshots-manager/upstream/scripts/update-i18n.py:404-411 | The line list is the header followed by four lines for each message. |
| `PoCatalog.QuoteRoundTrip` | packages/synos-btrfs-snapshots-manager/upstream/scripts/update-i18n.py:377-378 | Reading a quoted text as a string literal gives the text back, for every text. |
| `PoCatalog.ReadHeader` | packages/synos-btrfs-snapshots-manager/upstream/scripts/update-i18n.py:381-401 | The header reads as an entry of the empty message, which leaves no entry behind. |
| `PoCatalog.ReadMessages` | packages/synos-btrfs-snapshots-manager/upstream/scripts/update-i18n.py:406-410 | Reading the lines of a list of messages adds exactly their table. |
| `PoCatalog.CatalogRoundTrip` | packages/synos-btrfs-snapshots-manager/upstream/scripts/check-i18n.py:85-119 | Reading back a written catalogue gives exactly the map from non-empty messages to translations if and only if no text has a raw line separator; otherwise reading fails. |
| `PoCatalog.UnprintableFails` | packages/synos-btrfs-snapshots-manager/upstream/scripts/check-i18n.py:101-117 | A message or translation with a raw line separator makes reading fail; it is never misread. |
| `PoCatalog.CutLiteral` | packages/synos-btrfs-snapshots-manager/upstream/scripts/check-i18n.py:103-113 | A quoted text cut anywhere before its closing quote is not a literal. |
| `WebSocket.BuildFrame` | tools/devtools_browser.py:127-136 | The bytes send builds are the header, the key and the masked payload, at every length class. |
| `WebSocket.ClientFrameDecodes` | tools/devtools_browser.py:127-136 | By sections 5.2 and 5.3 of RFC 6455 the frame decodes to one final, masked text frame with the same payload, in any stream. |
| `WebSocket.LengthReadsBack` | tools/devtools_browser.py:129-135 | The length field reads back as the length, in the shortest of the three forms. |
| `WebSocket.MaskedTwice` | tools/devtools_browser.py:136 | Masking twice with one key gives the payload back. |
| `WebSocket.Socket.Read` | tools/devtools_browser.py:115-122 | _recv yields exactly the next k bytes of the stream and leaves the rest, for any chunking; it fails exactly when the connection ends first. |
| `WebSocket.Socket.Recv` | tools/devtools_browser.py:142-152 | recv yields the next frame of the stream and consumes exactly its bytes. |
| `WebSocket.Socket.AwaitReply` | tools/devtools_browser.py:137-140 | The loop in send yields the first message with the awaited id and consumes everything up to it. |
| `WebSocket.ServerFrameReads` | tools/devtools_browser.py:142-152 | An unmasked, unfragmented frame is read as what RFC 6455 says it is. |
| `WebSocket.ReceiveAll` | tools/devtools_browser.py:142-152 | However a sequence of frames is cut into chunks, recv yields the same frames in order and consumes their bytes and no others. |
| `WebSocket.RepliesInOrder` | tools/devtools_browser.py:137-140 | Whatever events come first, the reply found is the first with its id, and later frames stay in the stream. |
| `Resolver.ResolvePackages` | tools/render_manifest.py:471-520 | The nested loops compute the deduplicated expansion of the items, the unmapped names, or the first refusal. |
| `Resolver.ExpandAppend` | tools/render_manifest.py:487-519 | Expanding two lists together is expanding one and then the other, with the first refusal winning. |
| `Resolver.ResolveAppend` | tools/render_manifest.py:471-520 | Resolving a concatenation refuses if and only if a part refuses, with the first refusal, and otherwise yields the union, first part first. |
| `Resolver.ResolutionIsExact` | tools/render_manifest.py:471-520 | A resolution refuses if and only if some item is unavailable here or meets a language its table has no entry for, and otherwise contains exactly the packages that some item stands for. |
| `Resolver.ResolveKeepsFirst` | tools/render_manifest.py:474-476 | The packages are the first occurrences in the concatenated expansions. |
| `Saturation.SelectGroups` | tools/build_saturation.py:226-235 | The included groups are those neither excluded nor refused, and all resolve; the skipped ones are exactly those refused, each with its own refusal; and the excluded ones are exactly the groups an exclusion names. |
| `Saturation.SelectAdditions` | tools/build_saturation.py:237-248 | The additions that go in all resolve, the later of two profiles with one id counts, and the skipped ones are exactly those refused, each with its own refusal. |
| `Saturation.Union` | tools/build_saturation.py:250-258 | The piecewise union is what one resolution of all the pieces gives. |
| `Saturation.MakePlan` | tools/build_saturation.py:218-282 | The concrete union is one resolution of all included groups and additions minus the package exclusions; a stale exclusion is reported if and only if one names neither a group nor such a package; a plan names exactly what it leaves out, and why. |
| `Saturation.SkippedWouldRefuse` | tools/build_saturation.py:187-198 | Adding a skipped group would have made the whole resolution refuse. |
| `Archive.ParsePackagesIndex` | tools/packages_map_conformance.py:108-123 | The line loop accumulates names and providers, and every provider stays among the names. |
| `Archive.ParseKeepsProviders` | tools/packages_map_conformance.py:108-123 | In every parsed index, whatever provides something is itself a named package. |
| `Archive.ParseSaysWhatLinesSay` | tools/packages_map_conformance.py:108-123 | A view holds what it held before and exactly what the lines of the index say: the packages named, and each provision in its stanza. |
| `Conformance.CheckBase` | tools/packages_map_conformance.py:252-283 | The report lists exactly the findings of every visited combination of key, suite, architecture and template. |
| `Conformance.RoleIsVisited` | tools/packages_map_conformance.py:255-257 | The key the resolver looks a role up by is one check_base checks on that suite. |
| `Conformance.CheckAllClean` | tools/packages_map_conformance.py:241-250 | A list of packages raises no finding that counts exactly when all of them can be installed. |
| `Conformance.LanguageChecked` | tools/packages_map_conformance.py:263-279 | A clean language template expands, for each checked language, to packages that can be installed. |
| `Conformance.CleanReportMeansInstallable` | tools/packages_map_conformance.py:189-283 | If nothing is missing and nothing uncovered, resolving any mapped items for any live-capable suite on amd64 and any of the languages refuses with a declared reason or names only packages the archive has or provides; it never meets a stale table. |
| `Conformance.CleanReportExactly` | tools/packages_map_conformance.py:252-283 | A report is clean if and only if no visited language is uncovered and every package a visited combination expands to is in its archive. |
| `Conformance.CoveredExactly` | tools/packages_map_conformance.py:252-279 | Whatever the archives have, a clean report vouches for an item with an entry if and only if its resolution meets no stale table and every package it stands for on that suite is one that a visited combination expands to; a base with an uncovered language never has a clean report. |
| `Conformance.MappedIsCheckedFor` | tools/packages_map_conformance.py:255-259 | Every item whose entry check_base looks at on the suite, so every mapped role, meets that condition. |
| `Conformance.OtherSuitesEntryIsNotChecked` | tools/packages_map_conformance.py:255-259 | A concrete base for which a clean report says nothing: the key of another suite's entry, asked for as an item. |
| `LanguageTable.RenderMapFile` | tools/generate_language_packages.py:280-314 | The text is the header and one block for each template, with each of its rows once. |
| `LanguageTable.LoadLanguagePackageMap` | tools/render_manifest.py:333-350 | The line loop computes the table the file stands for, or refuses its first key without a slash. |
| `LanguageTable.ReadRow` | tools/render_manifest.py:334-349 | A printed row, with or without its comment, reads back as its entry. |
| `LanguageTable.StripLines` | tools/generate_language_packages.py:314 | Stripping the text and adding one newline drops the last blank line and no row. |
| `LanguageTable.PrintedTableReadsBack` | tools/generate_language_packages.py:280-314 | What is printed reads back as the table it was printed from. |
| `LanguageTable.TableHasBlock` | tools/render_manifest.py:335-350 | With distinct templates, each keeps exactly its own entries. |
| `LanguagePackages.ResolveOneIsReal` | tools/generate_language_packages.py:164-218 | Whatever is found for one language is a real package of the archive. |
| `LanguagePackages.FoundIsInstallable` | tools/generate_language_packages.py:233-255 | Every package written for a template with nothing after the language is a real or provided name of that suite's archive. |
| `LanguagePackages.SubstitutionWins` | tools/generate_language_packages.py:201-244 | When the archive has the package that what is before the placeholder and the language name, that one is found; the result is plain substitution if and only if the template has one placeholder. |
| `LanguagePackages.SuffixIsNotChecked` | tools/generate_language_packages.py:239-244 | For every template with text after the language, an archive for which the package written exists nowhere. |
| `LanguagePackages.InstallableExactlyWithoutSuffix` | tools/generate_language_packages.py:233-255 | What is written for a template is real on every archive if and only if nothing stands between its placeholder and the next one or the end. |
| `LanguagePackages.BasePackageHasSuffix` | bases/ubuntu/packages.map:29 | language-pack-${LANG}-base, which the generator handles, has text after the language and can be printed. |
| `LanguagePackages.BySuiteRows` | tools/generate_language_packages.py:336-339 | The rows of a language are those the rules give suite by suite. |
| `LanguagePackages.RowsFor` | tools/generate_language_packages.py:340-350 | Looking the language up on any suite gives that suite's row, under one bare key if and only if all suites agree. |
| `LanguagePackages.GenerateTemplate` | tools/generate_language_packages.py:334-351 | Every language of a template is answered on every suite, and the table has no other key. |
| `LanguagePackages.GenerateForBase` | tools/generate_language_packages.py:317-353 | The table answers every question for every template, or the error names a template no rule handles, or a technology the archive no longer has. |
| `LanguagePackages.RowIsPrintable` | tools/generate_language_packages.py:304-312 | Every row found against a well-formed archive, for a template with or without text after the language, can be printed and read. |
| `LanguagePackages.RowIsGood` | tools/generate_language_packages.py:233-255 | What is written for a template with nothing after the language is in the archive as it stands, whatever the architecture. |
| `LanguagePackages.PrintedAnswers` | tools/render_manifest.py:478-485 | The printed table, reloaded, answers every (template, language, suite) lookup with what the rules gave for that suite. |
| `LanguagePackages.GenerateFile` | tools/generate_language_packages.py:317-353 | Whatever text is generated reloads, and answers every lookup with what the rules gave for that suite. |
| `LanguagePackages.GeneratedIsCleanExactly` | tools/packages_map_conformance.py:260-279 | Checked against the same archives, a template of a generated table, with or without text after the language, is clean on a suite if and only if every package written for it is in that suite's archive. |
| `LanguagePackages.GeneratedExpands` | tools/render_manifest.py:505-514 | The resolver never meets a stale entry of a generated table, and can install what it expands to if and only if every package written for those languages is in the archive. |
| `LanguagePackages.GeneratedIsClean` | tools/packages_map_conformance.py:260-279 | Whatever other templates the base has, one with nothing after the language has nothing missing and nothing uncovered, and the resolver expands it to packages that can be installed. |

## Left out

- RedundantDeps.BestPath: the order in which neighbours are tried is left open, so which of several equally strong and equally short paths is returned is not fixed.
- CiCycle.VerifyAcyclic: the comparison of declared and actual pipeline needs, and the parsing of the project and pipeline files before the search, are left out; a package never depends on itself in the graph that is searched.
- JobQueue.LocalJobQueue.Take: the timed wait and notification of the condition variable are a step that changes nothing; that a waiting worker is woken is not modelled.
- JobQueue.CompletedRun: `build_one` and `on_result` are steps with arbitrary outcomes; that they return at all, and that `on_result` does not raise, is assumed. The worker number in a crash note is left out.
- KeyedLocks.BuildIsDisciplined: which keys a recipe has is a parameter; the scan of its scripts for shared paths is left out, and so are the downloads and prebuild.sh itself.
- KeyedLocks.EveryBuildFinishes: a build that fails ends its sections early like any exception; a build that has not begun may be dropped at any time, although main drops one only after an error; the order in which outcomes are collected and printed is left out, as is the branch for a single job, which uses no threads.
- GhostExchange.Client.Exchange: the deadline is an arbitrary finite number of passes of the loops, since the clock is not modelled; that a helper which is slow is given up in time is not proved.
- GhostExchange.Client.StartDaemon: environment, sockets and processes are left out; a start succeeds or fails arbitrarily. Graceful shutdown, suspension, observation and diagnosis are left out, as is the drawing of the suggestion.
- Profiles.DeepMerge: Python's equality of `1` and `True` is not modelled; scalars are compared as values. Key order within a mapping is left out.
- Profiles.ResolveIsCorrect: Python's recursion limit, the schema language and YAML parsing are left out; a file loads or does not.
- BuildStatus.FileAgreesWithLog: reading a version 1 file, JSON, atomic renaming and the sanitizing of error texts are left out; the error line is a parameter.
- BuildStatus.DifferentPairsCommute: equality is up to `generated_at`, which tells when the file was written.
- PoCatalog.PoEntries: only double-quoted literals with the escapes json.dumps writes are parsed; other Python literals are errors in the model.
- PoCatalog.WriteCatalog: the order of messages is a parameter, since case folding is not modelled; the fields of the header are parameters too.
- WebSocket.Socket.Recv: parsing the JSON of a payload is left out; the id of a message is a parameter of `AwaitReply`. Masked or fragmented frames from the server are read as the code reads them but nothing is promised about them.
- WebSocket.BuildFrame: partial delivery by `socket.send` is left out, as are payloads of 2^63 bytes or more.
- Resolver.ResolvePackages: the list of language gaps kept for reporting is left out; the texts of packages.map and of the bundles are read by code that is not modelled.
- Saturation.MakePlan: the reasons attached to exclusions and the sorting of the result are left out.
- Archive.ParsePackagesIndex: fetching and decompressing indexes, and the choice of pockets, are left out.
- Conformance.CheckBase: the number of packages checked, the order of the report and the list of providers of a provided name are left out.
- Conformance.CleanReportMeansInstallable: claims amd64 only; another architecture is checked only for roles that name it.
- LanguageTable.RenderMapFile: the order of the keys of a template is left open, and the text of the header is a parameter.
- LanguagePackages.GenerateFile: codes, suites and templates must be words without the punctuation of the file, and comments and reasons one line each; the country of the region named after a language and the wording of comments and reasons are parameters; the regular expression for regional variants is modelled by what it matches.
- GTK, Adwaita and Rust applications, image building, signing, the browser pages and all network and file access: user interfaces and foreign calls.
- `live_region_rows`, exit codes, report texts and command lines: each a fact of one branch.
