# A verified model of the repository's stateful and transforming cores

This project models thirteen source files of the repository in Dafny and proves what they keep, preserve
or compute. `dafny verify dfyconfig.toml` checks all of it.

| modules | what they model |
|---|---|
| `PosixPath`, `ImportGraph`, `IsolatedCopy`, `IsolatedResolution` | the import-graph walk and the isolated copy of a module (`scripts/load-channel-config-surface.ts`) |
| `NotifyState`, `PairNotify`, `NotifyDeliveries`, `NotifyRuns`, `NotifySafety`, `NotifyHistory`, `NotifyKeys` | the pairing notifier: its state file, its poll tick and commands, whole runs and interleavings, lost updates, its keys (`extensions/device-pair/notify.ts`) |
| `FoundryAuth` | the Entra token cache with its single-flight refresh, one atomic step per synchronous segment (`extensions/microsoft-foundry/runtime.ts`, `shared-runtime.ts`) |
| `IssueBatches`, `LabelerJob`, `LabelerRuns` | the paging generator and the checkpointed labelling job, cut off anywhere and restarted (`scripts/label-open-issues.ts`) |
| `UtcCalendar`, `ReleaseVersion` | the proleptic Gregorian calendar of section 21.4.1 of ECMA-262 and the release-version parser (`scripts/openclaw-npm-release-check.ts`) |
| `BlockReplace` | block replacement between markers (`scripts/sync-moonshot-docs.ts`) |
| `CompositeScan` | the composite-action scanner (`scripts/check-composite-action-input-interpolation.py`) |
| `FoundryEndpoint` | the endpoint normal form (`extensions/microsoft-foundry/shared.ts`) |
| `UsageTotals`, `UsageReport` | two-level usage aggregation and ranking (`scripts/cron_usage_report.ts`) |
| `BoundedCapture`, `Utf16Slice`, `PermissionArgs` | the bounded output buffer (`extensions/microsoft-foundry/cli.ts`), surrogate-safe slicing (`src/utils.ts`) and the argument rewriter (`extensions/anthropic/cli-shared.ts`) |
| `Base`, `Text` | shared helpers: options, finite sets and sequences, JavaScript's `trim` and decimal numerals |

Code that updates state is a class or a method with loops, proved against a function on values; the laws are
lemmas about those functions, over every input, every run and every interleaving.

## Where the code does less than one would expect

Each of these is proved: by the exact condition under which the code behaves as expected, by a concrete input or
run for which it does not, or by both.

- **Isolated copy.** An import that climbs above the copy root and comes back into it by name ("../p/g.ts" from
  /r/p/f.ts) loses its target in the copy. An import of the copy root directory itself keeps its target only if
  that target is an index file and the fresh directory's name has no extension
  (`IsolatedResolution.ResolutionPreserved`, `IsolatedResolution.SiblingRouteIsLost`).
- **Common ancestor.** The test for a leading "../" misses a listed path that is exactly the parent directory of
  the current ancestor. The copier itself never passes such a list (`IsolatedCopy.ResolveCommonAncestor`,
  `IsolatedCopy.ParentDirectoryBlocks`, `IsolatedCopy.FilesDoNotBlock`).
- **Notifier state.** A stamp between zero and one is kept as zero and dropped by the next read; account ids are not
  trimmed when a chat subscribes but are when the file is read, so two distinct keys can become one; chats whose texts
  hold a bar can share a key; two polls that overlap can deliver the same request twice; a poll or command that read
  before another one wrote erases what that one wrote, a new subscription for instance
  (`NotifyState.NormalizeIsIdempotent`, `NotifyRuns.StepKeepsGood`, `NotifySafety.UntrimmedAccountsCollide`,
  `NotifyKeys.KeyIsUnshared`, `NotifySafety.InterleavedDeliversExactly`, `NotifySafety.SecondPollRepeatsExactly`,
  `NotifySafety.HeardTwice`, `NotifyHistory.NextWriteDecides`, `NotifyHistory.SubscriptionSurvivesExactly`,
  `NotifyHistory.SubscriptionIsLost`). The service starts a poll every ten seconds without waiting for the previous one.
- **Token cache.** A colon in an id lets two accounts share a cache key, and one of them be served the token of the
  other; a reset while a refresh is in flight lets two refreshes of one key overlap, and no other reset does
  (`FoundryAuth.OwnTokenExactly`, `FoundryAuth.ColonMixesAccounts`, `FoundryAuth.ResetKeepsSingleFlight`,
  `FoundryAuth.ResetAllowsTwoRefreshes`). In the source, only `extensions/microsoft-foundry/index.test.ts` at line 226
  calls the reset.
- **Endpoints.** For a host named exactly "openai" the suffix test sees the host as part of the suffix, and
  "https://openai/v1" is taken for a built URL (`FoundryEndpoint.SuffixTestMeaning`).
- **Versions.** Because `Date.UTC` maps the years 0 to 99 to 1900 to 1999, the parser rejects the years 0000 to 0099;
  the years 0100 to 0999 are accepted, but `baseVersion` loses their leading zero
  (`ReleaseVersion.AcceptsRealDates`, `ReleaseVersion.PrintingRestoresVersion`, `ReleaseVersion.EarlyYears`).
- **Block replacement.** When the end marker occurs in the start marker or in a rendered line, every further
  replacement makes the text longer (`BlockReplace.IdempotentExactly`, `BlockReplace.EndMarkerInLine`).

## Assumptions

- Paths are absolute POSIX paths, as segments; file contents are the lists of specifiers in them. The directory that
  `mkdtemp` makes has nothing in or beside it that an import candidate could name, and no import names it
  (`Isolation.Fresh`).
- Notifier: the clock is positive and, for `NoEarlyRepeat`, does not run backwards; request ids are not blank; chat
  targets are trimmed and numeric thread ids integral, where a lemma says so.
- Token cache: a synchronous segment between two awaits is one step; a refresh's `finally` callback runs before its
  callers resume.
- Labeller: writing the state file is atomic, and a page with a successor is followed by it.
- URLs are in the serialised form the WHATWG parser produces, with scheme http or https and no credentials.

## Model

| member | source | states |
|---|---|---|
| `ImportGraph.ResolveImportCandidates` | scripts/load-channel-config-surface.ts:75-90 | the candidates, in order and each once, are those the declarative list `Candidates` gives after removing repetitions |
| `ImportGraph.FirstFileAddAll` | scripts/load-channel-config-surface.ts:77-89 | removing repeated candidates, as the `Set` does, never changes which existing file comes first |
| `ImportGraph.ResolveRelativeImportPath` | scripts/load-channel-config-surface.ts:92-101 | returns the first candidate that is a regular file, or nothing when none is |
| `ImportGraph.ImportOfFileName` | scripts/load-channel-config-surface.ts:75-101 | an import of a file name with an extension finds that file or else, in the same directory, the first that exists of its name with .ts, .tsx, .mts, .cts, .js, .jsx, .mjs and .cjs in place of the extension |
| `ImportGraph.ImportOfPlainName` | scripts/load-channel-config-surface.ts:75-101 | an import of a name without extension finds a file of that name or else, for each of the eight extensions in that order, the file with it or the index file with it in the directory of the name |
| `ImportGraph.ScriptNameFindsSource` | scripts/load-channel-config-surface.ts:79-82 | concretely: "./g.js" finds g.ts when there is no g.js |
| `ImportGraph.RelativeStartsWithDot` | scripts/load-channel-config-surface.ts:119 | an import is followed exactly when its text starts with a dot |
| `ImportGraph.AllTargets` | scripts/load-channel-config-surface.ts:117-126 | the paths pushed for a file are exactly the files it imports |
| `ImportGraph.CollectRelativeImportGraph` | scripts/load-channel-config-surface.ts:103-130 | ends on every finite file system; fails exactly when the entry is no file; otherwise the collected files are distinct and are the least set that holds the entry and is closed under resolved relative imports |
| `PosixPath.ResolveIsWalk` | scripts/load-channel-config-surface.ts:94 | resolving a relative path is its lexical normal form (levels up, then names down) replayed at the place where it is resolved |
| `PosixPath.StartsUpMeaning` | scripts/load-channel-config-surface.ts:140 | the `../` test on `path.relative` holds exactly when the path is neither below the ancestor nor its parent directory |
| `PosixPath.RelativeLeadsThere` | scripts/load-channel-config-surface.ts:139-168 | resolving the relative path between two places leads from the one to the other |
| `IsolatedCopy.ResolvePackageRoot` | scripts/load-channel-config-surface.ts:50-62 | finds the nearest directory at or above the module that holds a package.json; reports failure exactly when there is none |
| `IsolatedCopy.PackageRootMeaning` | scripts/load-channel-config-surface.ts:50-62 | a package.json marks a package root whether it is a file or a directory, and no such mark lies between the module and the one found |
| `IsolatedCopy.ResolveCommonAncestor` | scripts/load-channel-config-surface.ts:132-149 | never overshoots (every common prefix is above the result), and the result is above all paths if and only if no listed path is a parent directory that the climb stops just short of |
| `IsolatedCopy.ParentDirectoryBlocks` | scripts/load-channel-config-surface.ts:140 | a concrete input for which the returned directory is no common ancestor |
| `IsolatedCopy.FilesDoNotBlock` | scripts/load-channel-config-surface.ts:158-160 | the copier's own input (a directory above a module, then regular files) never has that shape |
| `IsolatedCopy.ResolveCopyRoot` | scripts/load-channel-config-surface.ts:158-160 | so the copy root is the deepest directory above the package root and all collected files |
| `IsolatedCopy.TargetRebases` | scripts/load-channel-config-surface.ts:167-168 | joining the relative path under the fresh root only replaces the copy root by it |
| `IsolatedCopy.CopyFiles` | scripts/load-channel-config-surface.ts:166-171 | afterwards exactly the collected files have a copy under the fresh root, with equal contents, and every original file is untouched |
| `IsolatedCopy.CopyModuleImportGraphWithoutNodeModules` | scripts/load-channel-config-surface.ts:151-178 | succeeds exactly when the module exists and a package root is found, and then returns a rebased copy of the least import graph together with the rebased module path |
| `IsolatedResolution.CopyIsIsolation` | scripts/load-channel-config-surface.ts:151-178 | the copier's result meets the assumptions of the theorems below |
| `IsolatedResolution.ResolutionPreserved` | scripts/load-channel-config-surface.ts:92-101 | an import of a collected file that resolved to g resolves, from the copy, to the copy of g if and only if its route stays below the copy root and, if it names the copy root itself, g is an index file and the fresh directory's name has no extension |
| `IsolatedResolution.UnresolvedPreserved` | scripts/load-channel-config-surface.ts:92-101 | an import that resolved to nothing still does, from the copy, if and only if: where it climbs above the copy root, no original file is found where it then points; where it names the copy root, that has no index file or the fresh directory's name has an extension |
| `IsolatedResolution.ImportKeptExactly` | scripts/load-channel-config-surface.ts:92-101 | the two together: an import is kept by the copy exactly under these conditions |
| `IsolatedResolution.IsolatedRootExtension` | scripts/load-channel-config-surface.ts:164 | the fresh directory's name has an extension exactly when the package directory's name has one |
| `IsolatedResolution.ImportsCopied` | scripts/load-channel-config-surface.ts:116-126 | in a self-contained tree, copies import exactly the copies of what the originals import |
| `IsolatedResolution.GraphPreserved` | scripts/load-channel-config-surface.ts:103-130 | the import graph of the copied module is the copy of the module's import graph |
| `IsolatedResolution.SiblingRouteIsLost` | scripts/load-channel-config-surface.ts:160-170 | a concrete tree in which "../p/g.ts" resolves before the copy and loses its target after it |
| `NotifyState.StateRoundTrip` | extensions/device-pair/notify.ts:81-150 | a written state is read back unchanged if and only if it is canonical (trimmed non-empty texts, non-blank ids, positive stamps) |
| `NotifyState.NormalizeIsIdempotent` | extensions/device-pair/notify.ts:81-135 | reading any file and storing the result is stable if and only if no kept stamp lies strictly between zero and one |
| `NotifyState.HalfStampIsLost` | extensions/device-pair/notify.ts:124-131 | concretely: a stamp of 0.5 is read as 0, written, and gone at the next read |
| `NotifyState.EncodeIsInjective` | extensions/device-pair/notify.ts:146-150 | no two states are written as the same file |
| `NotifyState.SubscriberMeaning` | extensions/device-pair/notify.ts:81-112 | an entry of the file is a subscription exactly when its `to` is a text that is not blank; its texts are trimmed, its mode is one-shot only if it says so, its time is truncated, or the present if it has none |
| `NotifyState.ThreadMeaning` | extensions/device-pair/notify.ts:99-105 | its thread is a trimmed text that is not blank, or a truncated number, or none |
| `NotifyState.ArrayEntry` | extensions/device-pair/notify.ts:84-87 | an array in the place of the stamps is read as an object whose names are its indexes |
| `NotifyState.StampMeaning` | extensions/device-pair/notify.ts:114-135 | a stamp of the file is kept exactly when its id is not blank and it is a number above zero; it is truncated |
| `PairNotify.NotifyStateFile.UpsertNotifySubscriber` | extensions/device-pair/notify.ts:184-206 | the list becomes the specified upsert, and `changed` says whether it differs |
| `PairNotify.NotifyStateFile.RemoveSubscriber` | extensions/device-pair/notify.ts:416-425 | the first entry with the key goes, and `changed` says whether the list differs |
| `PairNotify.NotifyStateFile.PruneNotified` | extensions/device-pair/notify.ts:292-297 | keeps exactly the remembered ids that are pending and at most 24 hours old |
| `PairNotify.NotifyStateFile.NotifySubscribers` | extensions/device-pair/notify.ts:306-321 | delivered exactly when some eligible send succeeds; the served keys are those of the one-shot subscribers sent to |
| `PairNotify.NotifyStateFile.NotifyPendingPairingRequests` | extensions/device-pair/notify.ts:281-342 | the state becomes the specified tick, and it is marked for writing exactly when it differs |
| `NotifyRuns.StepKeepsGood` | extensions/device-pair/notify.ts:281-433 | a tick or command keeps a good state (distinct keys, canonical) good if and only if what it writes is canonical or it writes nothing, as the guards of the code decide |
| `NotifyRuns.UpsertKeepsGood` | extensions/device-pair/notify.ts:184-206 | subscribing keeps the state good if and only if the chat's target is canonical or the chat has a subscription of that mode |
| `NotifyRuns.TickKeepsGood` | extensions/device-pair/notify.ts:301-326 | a tick does if and only if no request that is not remembered and whose send succeeds has a blank id or comes before the clock has started |
| `NotifyRuns.ActKeepsGood` | extensions/device-pair/notify.ts:137-150 | the same exact condition for a write from a snapshot, stale or not, into the file |
| `NotifyRuns.RunStaysGood` | extensions/device-pair/notify.ts:281-433 | a serialised run passes through good states only if and only if every event keeps the state it finds good |
| `NotifyRuns.RunKeepsGood` | extensions/device-pair/notify.ts:281-433 | so every run of valid events does: a positive clock, no blank request id, canonical targets |
| `NotifyRuns.InterleavingStaysGood` | extensions/device-pair/notify.ts:137-150 | however polls and commands interleave on stale snapshots, all files and snapshots are good if and only if every applied event keeps the snapshot it is applied to good |
| `NotifyRuns.InterleavedFilesAreGood` | extensions/device-pair/notify.ts:137-150 | so with valid events every file written has distinct keys and is read back as the identity |
| `NotifyRuns.SerialisedRunRefines` | extensions/device-pair/notify.ts:281-433 | uninterrupted read, modify, write cycles through the file compute the plain run on states |
| `NotifyRuns.TickRemembersPending` | extensions/device-pair/notify.ts:289-297 | after a tick every remembered id is pending |
| `NotifyDeliveries.DeliversExactly` | extensions/device-pair/notify.ts:292-326 | a tick delivers an id if and only if the state it started from does not remember it (or did so too long ago) and a send for it succeeds |
| `NotifyDeliveries.DeliversToExactly` | extensions/device-pair/notify.ts:301-326 | a request reaches a subscriber if and only if the send succeeds, its id is not remembered and no earlier request with the id was sent to anybody |
| `NotifyDeliveries.PersistentIsReached` | extensions/device-pair/notify.ts:237-326 | a request reaches a persistent subscriber, whatever its stamp, if and only if the send succeeds, the id has no stamp of the last 24 hours and nobody received an earlier request with the id |
| `NotifyDeliveries.OneShotIsReached` | extensions/device-pair/notify.ts:237-326 | a one-shot subscriber, if and only if in addition the request has a stamp that, truncated, is positive and not before the arming |
| `NotifyDeliveries.TickLeaves` | extensions/device-pair/notify.ts:292-326 | after a tick an id has its old stamp if that is recent and the id pending, the time of the tick if somebody received it, and else none |
| `NotifyDeliveries.OneShotBoundary` | extensions/device-pair/notify.ts:244-249 | concretely: armed at 2000, it hears of a request stamped 2000 but of none stamped 1999 and of none without a stamp |
| `NotifyDeliveries.OldRequestIsHeard` | extensions/device-pair/notify.ts:241-243 | concretely: a persistent subscriber of 2000 hears of a request stamped 1000 at a poll at 3000, which is remembered with 3000 |
| `NotifyDeliveries.ServesExactly` | extensions/device-pair/notify.ts:318-320 | a tick serves a one-shot key if and only if such a send to a one-shot subscription with that key is due |
| `NotifyDeliveries.DeliveredIdIsStamped` | extensions/device-pair/notify.ts:323-326 | a delivered request is remembered with the time of the tick |
| `NotifyDeliveries.RememberedIdIsSkipped` | extensions/device-pair/notify.ts:301-304 | a remembered, pending, recent request is not delivered again and stays remembered |
| `NotifySafety.NoEarlyRepeat` | extensions/device-pair/notify.ts:285-327 | over whole runs: an id delivered in two ticks was absent from the pending list at a tick in between, or more than 24 hours passed |
| `NotifySafety.TickRemovesServed` | extensions/device-pair/notify.ts:318-336 | a tick removes a subscription if and only if it is one-shot and a delivery to it succeeded |
| `NotifySafety.TickAddsNone` | extensions/device-pair/notify.ts:328-336 | a tick adds no subscription |
| `NotifySafety.ServedAtMostOnce` | extensions/device-pair/notify.ts:299-336 | over whole runs: a one-shot key is served in two ticks only if it was armed again in between |
| `NotifySafety.OnceWasArmed` | extensions/device-pair/notify.ts:344-376 | over whole runs, from any state: a one-shot subscription was there at the start or carries the time of the command that armed it |
| `NotifySafety.OneShotHearsOnlyNewRequests` | extensions/device-pair/notify.ts:237-250 | over whole runs, from any state: a one-shot subscriber only receives requests stamped at or after the time it carries, that of its arming if the run armed it |
| `NotifySafety.OverlappingPollsRepeat` | extensions/device-pair/notify.ts:281-342 | two polls that have read the same file both deliver the request to the same subscriber |
| `NotifySafety.InterleavedDeliversExactly` | extensions/device-pair/notify.ts:281-342 | in every interleaving: a poll delivers an id, again or for the first time, if and only if the file did not remember it at the moment the poll read it and a send for it succeeds |
| `NotifySafety.PollRepeatsExactly` | extensions/device-pair/notify.ts:281-342 | on any snapshot a poll delivers an id if and only if the snapshot does not remember it and a send succeeds, so it repeats what the file remembers only from a stale snapshot |
| `NotifySafety.InterleavedServesExactly` | extensions/device-pair/notify.ts:281-342 | in every interleaving: a poll serves a one-shot key, again or for the first time, if and only if the file held such a subscription, with a send due to it, when the poll read it |
| `NotifySafety.SecondPollServesExactly` | extensions/device-pair/notify.ts:281-342 | after a poll that serves a one-shot key, one that read before it wrote serves the key again if and only if a send of its own is due; one that reads afterwards never does |
| `NotifySafety.SecondPollRepeatsExactly` | extensions/device-pair/notify.ts:281-342 | after a poll that delivers an id, one that read before it wrote repeats the id if and only if its send succeeds; one that reads afterwards, if and only if also more than 24 hours have passed |
| `NotifySafety.HeardTwice` | extensions/device-pair/notify.ts:458-490 | concretely: one chat, one request, two overlapping polls, and the chat hears of the request twice |
| `NotifySafety.UntrimmedAccountsCollide` | extensions/device-pair/notify.ts:166-182 | with an untrimmed account id, two keys that differ when written coincide when read back |
| `NotifyHistory.HistoryExplains` | extensions/device-pair/notify.ts:137-150 | in every interleaving the file, and every snapshot, is the result of the events of its history alone, one after the other |
| `NotifyHistory.SurvivesExactly` | extensions/device-pair/notify.ts:281-433 | the effect of an event survives a later write if and only if it was in the file, readable, when that writer read it |
| `NotifyHistory.NextWriteDecides` | extensions/device-pair/notify.ts:281-433 | the effect of a write survives the next write if and only if the second writer read, and could read, after the first had written |
| `NotifyHistory.SubscriptionSurvivesExactly` | extensions/device-pair/notify.ts:399-408 | a new persistent subscription is still there after the next write, a poll's, if and only if the poll read after the chat had subscribed |
| `NotifyHistory.SubscriptionIsLost` | extensions/device-pair/notify.ts:281-342 | concretely: a poll reads, a chat subscribes, the poll writes, and no subscription is left |
| `NotifyKeys.ChatsResolve` | extensions/device-pair/notify.ts:166-182 | the targets that chats resolve to are those with a trimmed, non-empty id and no empty account id |
| `NotifyKeys.KeyIsUnshared` | extensions/device-pair/notify.ts:152-158 | no other chat shares a chat's key if and only if its account and thread hold no bar, and its id holds none behind a trimmed, non-empty text |
| `NotifyKeys.ThreadsShareText` | extensions/device-pair/notify.ts:157 | threads share a text if and only if they are equal or one is the text of the other: number 5 and text "5", no thread and the empty text |
| `NotifyKeys.CommandLeavesOthers` | extensions/device-pair/notify.ts:399-433 | a command leaves the subscriptions of all other keys alone, in their order, and what is remembered |
| `NotifyKeys.CommandLeaves` | extensions/device-pair/notify.ts:399-433 | which subscriptions are there after each command: the others' as before, and the chat's own according to the command |
| `NotifyKeys.ContextDecides` | extensions/device-pair/notify.ts:166-182 | which text of the context becomes the id of the target, which its account and which its thread |
| `FoundryAuth.KeySeparatesAccounts` | extensions/microsoft-foundry/shared-runtime.ts:10-15 | with colon-free subscription ids, keys are equal if and only if the accounts are, and then the same account arguments are used |
| `FoundryAuth.KeyIsUnshared` | extensions/microsoft-foundry/shared-runtime.ts:10-15 | no other account shares the key if and only if neither id holds a colon |
| `FoundryAuth.RunKeepsInvariant` | extensions/microsoft-foundry/runtime.ts:22-96 | in every interleaving without reset: the promise map holds exactly the refreshes in flight, cached tokens sit under the key they were minted for, and every caller's answer fits the refresh it joined |
| `FoundryAuth.AtMostOneRefreshPerKey` | extensions/microsoft-foundry/runtime.ts:82-91 | in every interleaving without reset, at most one refresh per key is in flight |
| `FoundryAuth.CallersGetTheirOwnToken` | extensions/microsoft-foundry/runtime.ts:70-96 | with colon-free subscription ids, each served caller holds a token minted for its own account, either cached with more than five minutes left or produced by the refresh it joined |
| `FoundryAuth.OwnTokenExactly` | extensions/microsoft-foundry/shared-runtime.ts:10-15 | whoever else calls: every caller of an account is served its own token in every run without reset if and only if neither of its ids holds a colon |
| `FoundryAuth.FailedRefreshIsRetried` | extensions/microsoft-foundry/runtime.ts:82-92 | over runs: after any events that follow a failed and cleaned-up refresh, a caller for its key without a fresh token waits for another refresh in flight, started since if none was in flight, and the cache is left as it was |
| `FoundryAuth.WaitingEnds` | extensions/microsoft-foundry/runtime.ts:92-96 | over runs: a waiting caller that is resumed once its refresh has been cleaned up has, then and for good, the outcome of the refresh it joined |
| `FoundryAuth.ColonMixesAccounts` | extensions/microsoft-foundry/shared-runtime.ts:14 | a concrete run in which one account is served the token of another |
| `FoundryAuth.ResetAllowsTwoRefreshes` | extensions/microsoft-foundry/runtime.ts:17-20 | a reset in mid-flight lets two refreshes of one key run at once |
| `FoundryAuth.ResetKeepsSingleFlight` | extensions/microsoft-foundry/runtime.ts:17-20 | a reset keeps single flight, in every run that follows it, if and only if nothing is in flight at that moment |
| `FoundryAuth.FoundryRuntimeAuth.PrepareFoundryRuntimeAuth` | extensions/microsoft-foundry/runtime.ts:70-91 | up to the await: the caller is served a fresh cached token, or waits for the one and only refresh in flight for its key; the two module maps stay those of a run without reset |
| `FoundryAuth.RunCachesMinted` | extensions/microsoft-foundry/runtime.ts:26-33 | in every run, reset or not, each cached token is the outcome of a refresh for its key |
| `FoundryAuth.CachedWasAnswered` | extensions/microsoft-foundry/runtime.ts:22-33 | in every run, each cached token was given by an answer of az to some refresh, with the expiry the answer names, or 55 minutes after the answer if it names none |
| `FoundryAuth.ServedWasAnswered` | extensions/microsoft-foundry/runtime.ts:70-96 | and so was each token that a caller is served |
| `FoundryAuth.CacheServesOnlyFresh` | extensions/microsoft-foundry/runtime.ts:75-76 | in every run without reset, a caller is served from the cache only a token whose expiry, as az named it or 55 minutes after the answer, is more than 300000 milliseconds away |
| `FoundryAuth.CacheServesExactly` | extensions/microsoft-foundry/runtime.ts:70-91 | a call is answered from the cache if and only if the entry of its key expires more than 300000 milliseconds later, and else waits |
| `FoundryAuth.TenMinuteToken` | extensions/microsoft-foundry/runtime.ts:26-33 | concretely: a token of ten minutes is served from the cache for five, and then refreshed |
| `FoundryAuth.FailedNeverCaches` | extensions/microsoft-foundry/runtime.ts:26-33 | over runs: a failed refresh stays failed, and every token cached then or later comes from another refresh |
| `FoundryAuth.CleanUpEndsFlight` | extensions/microsoft-foundry/runtime.ts:87-89 | the `finally` callback ends the flight of this refresh and of no other, and leaves none for its key |
| `FoundryAuth.NoLateWaiters` | extensions/microsoft-foundry/runtime.ts:82-91 | over runs: once a refresh has been cleaned up, no later caller joins it |
| `IssueBatches.FetchOpenLabelItemBatches` | scripts/label-open-issues.ts:425-485 | whenever the pages end or reach the limit: the generator yields the page stream, cut at the limit (infinite, fractional or negative too), divided into work batches |
| `IssueBatches.BatchesLoseNothing` | scripts/label-open-issues.ts:451-484 | put together, the batches are the fetched items in order |
| `IssueBatches.BatchShape` | scripts/label-open-issues.ts:458-484 | indexes run 1, 2, 3; every batch but the last has 500 items, none is empty; `fetchedCount` is the running sum |
| `IssueBatches.StreamIsAllPages` | scripts/label-open-issues.ts:440-484 | the page stream is the items of all pages up to and including the first that announces no successor |
| `IssueBatches.ItemsOfNodes` | scripts/label-open-issues.ts:416-423 | every node gives one item, in order, with its number, title, body and labels; a missing body is empty and missing labels are none |
| `IssueBatches.YieldedItems` | scripts/label-open-issues.ts:425-485 | put together, the batches hold the first n items of the page stream, or all of them when there are fewer, for a limit n; and all without a limit |
| `IssueBatches.LimitFetchesLeast` | scripts/label-open-issues.ts:440-452 | for any limit: all items, or the least number of them that is not below the limit |
| `IssueBatches.BatchesOfFiveHundred` | scripts/label-open-issues.ts:458-484 | batch i has index i, counted from 1, and at most 500 items, exactly 500 if it is not the last |
| `IssueBatches.LimitOfOne` | scripts/label-open-issues.ts:440-452 | concretely: with a limit of one, one of two items on a page is yielded |
| `LabelerJob.SnapshotRoundTrip` | scripts/label-open-issues.ts:267-309 | a saved snapshot is strictly sorted in both lists, and loading it, which filters out what is no number, gives the sets it was made from |
| `LabelerJob.PendingConcat` | scripts/label-open-issues.ts:741 | the pending items are those of the batch that are not saved, in order and with repetitions |
| `LabelerJob.ThreeIssues` | scripts/label-open-issues.ts:741-792 | concretely: with issue 1 saved, a batch of 1, 3 and 2 labels 3 and 2 and then saves all three |
| `LabelerJob.BatchCompletes` | scripts/label-open-issues.ts:741-792 | a completed batch leaves the file in step with the working sets, with all of its items saved |
| `LabelerJob.CutRun` | scripts/label-open-issues.ts:736-865 | cut off after any number of outside actions: nothing saved is lost, only processed numbers are saved, and what is processed but unsaved belongs to one batch |
| `LabelerRuns.LabelOpenItems` | scripts/label-open-issues.ts:736-865 | the stateful job performs exactly the planned actions up to the cut and leaves exactly the file they leave |
| `LabelerRuns.CutRunIsSafe` | scripts/label-open-issues.ts:736-865 | the same for whole runs on fetched pages, with at most 500 items processed but unsaved |
| `LabelerRuns.UncutRunSavesIssues` | scripts/label-open-issues.ts:736-793 | an uncut run leaves the number of every fetched issue in the file |
| `LabelerRuns.UncutRunSavesPullRequests` | scripts/label-open-issues.ts:805-865 | and the number of every fetched pull request |
| `LabelerRuns.SavedItemsAreSkipped` | scripts/label-open-issues.ts:741 | an item whose number is saved is never processed again |
| `LabelerRuns.SavedOnlyGrows` | scripts/label-open-issues.ts:736-865 | over any sequence of runs cut off anywhere, the saved sets only grow |
| `LabelerRuns.SavedWasProcessed` | scripts/label-open-issues.ts:736-865 | every saved number was in the first file or was processed by one of the runs |
| `LabelerRuns.RepeatsComeFromTheCutBatch` | scripts/label-open-issues.ts:736-865 | all the items of a run that any later runs process again lie in one batch of that run, of at most 500 items: the one it was cut off in |
| `UtcCalendar.CivilIsReal` | scripts/openclaw-npm-release-check.ts:88-95 | the getters of every time give a real Gregorian date, and it is the date of that day |
| `UtcCalendar.LengthsOfMonths` | scripts/openclaw-npm-release-check.ts:88-95 | in every year April, June, September and November have 30 days, February 28, or 29 in years divisible by 4 and not by 100, or by 400, and all others 31 |
| `UtcCalendar.NextDay` | scripts/openclaw-npm-release-check.ts:88-95 | day numbers count on by one from each Gregorian date to the next, over the ends of months and years |
| `UtcCalendar.Epoch` | scripts/openclaw-npm-release-check.ts:88 | the count starts at the first of January 1970, which is also what the year 70 means |
| `UtcCalendar.RealDayReadsBack` | scripts/openclaw-npm-release-check.ts:88-95 | every real Gregorian date is recovered from its day number |
| `UtcCalendar.UtcReadsBack` | scripts/openclaw-npm-release-check.ts:88-95 | `Date.UTC` followed by the getters gives the fields back if and only if they are a real date outside the years 0 to 99 |
| `UtcCalendar.StartOfUtcDayIsMidnight` | scripts/openclaw-npm-release-check.ts:163-165 | the result is the midnight before the time if and only if the year is not one of 0 to 99 |
| `UtcCalendar.TimeOfDayIsDropped` | scripts/openclaw-npm-release-check.ts:163-165 | outside the years 0 to 99, every time within 86400000 milliseconds of a midnight gives that midnight |
| `UtcCalendar.DistanceCountsDays` | scripts/openclaw-npm-release-check.ts:163-169 | for all times: the distance between the two dates as `Date.UTC` moves them; it is the number of calendar days if and only if both dates are moved alike or they swap sides |
| `UtcCalendar.ZeroDistance` | scripts/openclaw-npm-release-check.ts:167-169 | outside the years 0 to 99 the distance is the number of calendar days, and zero exactly for equal dates |
| `ReleaseVersion.PatternsAreExact` | scripts/openclaw-npm-release-check.ts:40-44 | each pattern matches exactly the texts of its own form and none of another form |
| `ReleaseVersion.WrittenIsMatched` | scripts/openclaw-npm-release-check.ts:40-44 | every text written from well-formed groups is matched, with exactly these groups |
| `ReleaseVersion.MatchedIsWritten` | scripts/openclaw-npm-release-check.ts:40-44 | whatever is matched is the text written from its well-formed groups |
| `ReleaseVersion.AcceptsRealDates` | scripts/openclaw-npm-release-check.ts:63-140 | a trimmed text written from groups is accepted if and only if its day exists in its month, by the literal month lengths, and its year is not below 100; the fields are those written |
| `ReleaseVersion.AcceptedIsWritten` | scripts/openclaw-npm-release-check.ts:102-137 | only trimmed texts written from groups are accepted |
| `ReleaseVersion.EndOfMayAndApril` | scripts/openclaw-npm-release-check.ts:63-140 | concretely: "2026.5.31", "2026.5.31-beta.12" and "2026.5.31-12" are accepted, "2026.4.31" is refused |
| `ReleaseVersion.PrintingRestoresVersion` | scripts/openclaw-npm-release-check.ts:97-136 | printing the parsed fields gives the trimmed text back if and only if the year is at least 1000 |
| `ReleaseVersion.EarlyYears` | scripts/openclaw-npm-release-check.ts:88-95 | concretely: "0099.1.1" is refused, and "0999.1.1" is accepted but does not print back |
| `BlockReplace.ReplacementIsFramed` | scripts/sync-moonshot-docs.ts:21-50 | the text comes apart into what precedes the start marker's line, the block and what follows the end marker's line; only the block is replaced |
| `BlockReplace.MissingExactly` | scripts/sync-moonshot-docs.ts:21-28 | it fails for a missing start marker exactly when there is none, and for a missing end marker exactly when there is none at or after the first start marker |
| `BlockReplace.TwoRenderedLines` | scripts/sync-moonshot-docs.ts:40-50 | the start marker, each line and the end marker are written on lines of their own, each with the indent of the old start marker |
| `BlockReplace.IdempotentExactly` | scripts/sync-moonshot-docs.ts:15-51 | replacing again changes nothing if and only if the end marker occurs in neither the start marker nor an indented line |
| `BlockReplace.GrowsWhenEarly` | scripts/sync-moonshot-docs.ts:25 | otherwise the second replacement makes the text longer |
| `BlockReplace.EndMarkerInLine` | scripts/sync-moonshot-docs.ts:25 | concretely: with a rendered line that holds the end marker, two replacements add a line each |
| `CompositeScan.ScanFile` | scripts/check-composite-action-input-interpolation.py:18-57 | ends, and returns exactly the report of the declarative block ownership |
| `CompositeScan.ScanBlock` | scripts/check-composite-action-input-interpolation.py:45-55 | stops at the first line the block does not own, having reported the block's lines |
| `CompositeScan.OwnerIsUnique` | scripts/check-composite-action-input-interpolation.py:28-55 | no line belongs to the blocks of two `run:` lines |
| `CompositeScan.RunLineIsMatched` | scripts/check-composite-action-input-interpolation.py:10 | white space, "run:" and any value is a `run:` line of that width and stripped value, and opens a block if and only if the value is empty or starts with a vertical bar or an angle bracket |
| `CompositeScan.MatchedLineRuns` | scripts/check-composite-action-input-interpolation.py:10 | and no other line is one |
| `CompositeScan.InterpolationMeaning` | scripts/check-composite-action-input-interpolation.py:9 | a text interpolates an input if and only if somewhere a dollar sign with two opening braces, white space and "inputs." follow each other |
| `CompositeScan.StripCuts` | scripts/check-composite-action-input-interpolation.py:36-54 | stripping cuts off white space at both ends, all of it, and nothing else |
| `CompositeScan.IndentationCounts` | scripts/check-composite-action-input-interpolation.py:14-15 | the indentation is the number of blanks, and of no other white space, that a line starts with |
| `CompositeScan.Spaces` | scripts/check-composite-action-input-interpolation.py:9-10 | white space is the 29 characters of these numbers |
| `CompositeScan.ReportMembers` | scripts/check-composite-action-input-interpolation.py:39-55 | the report holds exactly the interpolating lines that are single-line run values or lie in a run block |
| `CompositeScan.ReportIncreases` | scripts/check-composite-action-input-interpolation.py:24-57 | in strictly increasing line order, so no line twice |
| `FoundryEndpoint.NormalizeIsOriginAndPath` | extensions/microsoft-foundry/shared.ts:141-145 | the normal form is origin and path, without query or fragment, and reads back as a URL |
| `FoundryEndpoint.NormalizedPathShape` | extensions/microsoft-foundry/shared.ts:144 | the path that is left holds no "/openai" segment in any letter case and ends in no slash |
| `FoundryEndpoint.PathIsCut` | extensions/microsoft-foundry/shared.ts:144 | it is the part in front of the first "/openai" segment, if there is one, without the slashes at its end |
| `FoundryEndpoint.OpenaiMeaning` | extensions/microsoft-foundry/shared.ts:144 | such a segment is a slash and the six letters in any case, at the end or before another slash |
| `FoundryEndpoint.FooPath` | extensions/microsoft-foundry/shared.ts:144 | concretely: of "/foo/OpenAI/x" the path "/foo" is left |
| `FoundryEndpoint.BuildAppends` | extensions/microsoft-foundry/shared.ts:152-155 | every endpoint but one kind is built as its origin, its normalized path and "/openai/v1" |
| `FoundryEndpoint.NormalizeIsIdempotent` | extensions/microsoft-foundry/shared.ts:135-145 | normalizing a normalized endpoint changes nothing |
| `FoundryEndpoint.SuffixTestMeaning` | extensions/microsoft-foundry/shared.ts:154 | the `endsWith` branch is taken if and only if the host is exactly "openai" and the path left is "/v1" |
| `FoundryEndpoint.HostNamedOpenai` | extensions/microsoft-foundry/shared.ts:154 | "https://openai/v1" is a concrete endpoint that takes it |
| `FoundryEndpoint.NormalizeUndoesBuild` | extensions/microsoft-foundry/shared.ts:152-155 | normalizing a built URL gives the normalized endpoint |
| `FoundryEndpoint.BuildIsIdempotent` | extensions/microsoft-foundry/shared.ts:152-155 | building from a built URL changes nothing |
| `UsageReport.Aggregate` | scripts/cron_usage_report.ts:148-215 | the nested loops leave, for every job and model, the sums over the accepted entries |
| `UsageReport.CountsWithUsage` | scripts/cron_usage_report.ts:197-213 | an entry with usage adds its input and output, truncated and never negative, and the total it names, or else their sum |
| `UsageReport.CountsWithoutUsage` | scripts/cron_usage_report.ts:172-201 | an entry without usage adds one run and one run without usage, and no tokens |
| `UsageReport.TwoEntries` | scripts/cron_usage_report.ts:203-205 | concretely: 10.9 and 5 tokens without a total count as 10, 5 and 15; no input, -2.5 and a total of 7.5 as 0, 0 and 7 |
| `UsageReport.ModelNames` | scripts/cron_usage_report.ts:165 | a missing or blank model counts as "<unknown>", any other under its trimmed name |
| `UsageTotals.SumsSnoc` | scripts/cron_usage_report.ts:207-213 | each of the five figures of a group grows by that of a member and by nothing for others |
| `UsageTotals.CountingIsTotals` | scripts/cron_usage_report.ts:176-213 | counting one more entry keeps the two-level totals equal to the declarative sums |
| `UsageTotals.JobIsSumOfModels` | scripts/cron_usage_report.ts:187-213 | the figures of a job are the sums over its models |
| `UsageTotals.JobsAccountForEverything` | scripts/cron_usage_report.ts:176-213 | all jobs together account for exactly the counted entries |
| `UsageReport.FilesAndLinesInAnyOrder` | scripts/cron_usage_report.ts:148-154 | the totals do not depend on how the lines are spread over files or ordered |
| `UsageReport.RunsAreAcceptedEntries` | scripts/cron_usage_report.ts:159-168 | the runs of all reported jobs are as many as the lines that hold an accepted entry |
| `UsageReport.RankingSorts` | scripts/cron_usage_report.ts:217-222 | `toSorted` by descending total: a permutation, descending, and stable |
| `UsageReport.ReportIsRanked` | scripts/cron_usage_report.ts:217-222 | the reported rows are those of all jobs, each job once, by descending total |
| `UsageReport.RowIsRanked` | scripts/cron_usage_report.ts:218-221 | within each reported job the models are in descending order of their totals |
| `UsageReport.RanksByTotalTokens` | scripts/cron_usage_report.ts:217-222 | what descends, for jobs and models alike, is the number of total tokens |
| `UsageReport.ReportConserves` | scripts/cron_usage_report.ts:217-222 | in the ranked report, the model rows of every job add up to the job, and the jobs add up to everything counted |
| `BoundedCapture.Capture.AppendBoundedChunk` | extensions/microsoft-foundry/cli.ts:153-164 | after every chunk the buffer is the longest suffix of the non-empty chunks received that fits in 8000 units, and the tracked length is the sum of the kept chunks |
| `BoundedCapture.FitIsLongest` | extensions/microsoft-foundry/cli.ts:159-162 | dropping from the front until the rest fits leaves the longest suffix that fits |
| `BoundedCapture.LongerRestsOverflow` | extensions/microsoft-foundry/cli.ts:159-162 | any longer rest of the chunks has more than 8000 code units |
| `BoundedCapture.FitIncrementally` | extensions/microsoft-foundry/cli.ts:157-162 | dropping chunk by chunk as they arrive equals dropping once at the end |
| `Utf16Slice.SliceUtf16Safe` | src/utils.ts:238-265 | returns the longest part of the requested range that splits no surrogate pair, for negative and swapped bounds too |
| `Utf16Slice.LongestSafeIsUnique` | src/utils.ts:250-264 | there is only one such part |
| `Utf16Slice.SafePartIsWellFormed` | src/utils.ts:238-265 | well-formed UTF-16 stays well-formed |
| `Utf16Slice.SmallTexts` | src/utils.ts:230-236 | a lone surrogate is not well-formed, and a surrogate followed by a unit only as a high one followed by a low one |
| `Utf16Slice.SurrogateRanges` | src/utils.ts:230-236 | the high surrogates are the 1024 units from 0xD800, the low ones the next 1024 |
| `Utf16Slice.BoundsOf` | src/utils.ts:241-242 | bounds beyond the ends of the text are cut to the ends, negative ones count from its end |
| `Utf16Slice.TruncateUtf16Safe` | src/utils.ts:267-273 | a text over the limit is cut at the limit, or one unit earlier exactly when the limit would split a pair |
| `PermissionArgs.NormalizeClaudePermissionArgs` | extensions/anthropic/cli-shared.ts:44-76 | returns the rewriting of the parsed argument list; absent arguments stay absent |
| `PermissionArgs.NormalizeList` | extensions/anthropic/cli-shared.ts:48-75 | the index loop with its two flags computes that rewriting |
| `PermissionArgs.RewritingByPosition` | extensions/anthropic/cli-shared.ts:51-74 | token by token: everything but legacy flags outside value positions is kept in order, and the bypass mode is appended exactly when such a flag was seen and no mode was given |
| `PermissionArgs.ReadIsReadable` | extensions/anthropic/cli-shared.ts:51-71 | parsing loses nothing: writing the parsed items gives the arguments back |
| `PermissionArgs.RewrittenArgs` | extensions/anthropic/cli-shared.ts:51-74 | the result parses as the rewritten items, with no legacy flag outside a value position |
| `PermissionArgs.RewritingIsIdempotent` | extensions/anthropic/cli-shared.ts:44-76 | rewriting twice is rewriting once |
| `PermissionArgs.NothingToRewrite` | extensions/anthropic/cli-shared.ts:72-75 | a list without such a flag is returned unchanged |

## Left out

- I/O, processes, prompts and network calls: their results are parameters (file systems, pages, send outcomes, answers of az).
- `import()` of the copied module and the retry decision: resolution is the copier's own, in both trees.
- The regular expression that extracts import specifiers, `JSON.parse`, and line splitting: their results are data.
- Windows paths and drive letters.
- The early return of `resolveCommonAncestor` at the root: a relative path from the root never starts with "../".
- Specifiers are strings split at slashes; symbolic links are not part of this model.
- Notification texts and the `status` reply: no state depends on them. Sends are inputs, and the channel test of a command is left out.
- A state file that is caught half written is modelled only as a read that yields the empty state.
- Labeller: classification, the choice of labels, the dry run (it writes no file) and the printed counters; a pull request that already carries the skill label is processed without classification, which the model does not tell apart.
- `totalCount` of a batch: it is only printed.
- `LabelerRuns.LabelOpenItems`: fetches all batches before it processes them, where the script interleaves fetching and processing; the outside actions and their order are the same for the same pages.
- `IssueBatches.FetchOpenLabelItemBatches`: requires pages that end or reach the limit; with a page stream that always announces a successor and never reaches the limit the generator does not end.
- `resetFoundryRuntimeAuthCaches`: the guarantees are for runs without it; `FoundryAuth.ResetKeepsSingleFlight` says exactly when single flight survives it.
- Endpoint, model and credential lookup in `prepareFoundryRuntimeAuth`: they do not touch the caches.
- The branch of `normalizeFoundryEndpoint` for text that does not parse as a URL, and its early return for blank text.
- `BlockReplace.IdempotentExactly`: for non-empty markers without newlines; rendered lines may hold newlines.
- The search for `using: composite` in the scanner is a boolean input, and so is the split into lines.
- Order of `Object.values`: the ranking theorems hold for every listing of jobs and models.
- `NotifyState.NormalizeIsIdempotent`: infinite or missing numbers are absent values, and numbers are exact reals, so rounding above 2 to the power 53 is not modelled.
- `Utf16Slice.SliceUtf16Safe`: integer bounds; NaN and fractional bounds are not part of this model.
- `ReleaseVersion.AcceptsRealDates`: numbers are exact integers; a beta or correction number beyond the double range, which becomes an infinity and is refused, is accepted here.
- `ReleaseVersion.PrintingRestoresVersion`: likewise, a beta or correction number above 2 to the power 53, which a double does not print back, is printed back here.
- `LabelerJob.SnapshotRoundTrip`: numbers in the state file are integers; a fractional number, which the filter lets through, is not part of this model.
- Tag parsing and the release-metadata checks around `parseReleaseVersion`: they only compare its fields.
- IPv4 checks, poll normalisation, version fallbacks, model catalogs and provider registration: easy members that would add little.
