# go-mod-edge-utils: a verified model

This project models the stateful parts of the Go library go-mod-edge-utils and
proves properties of them:

- **Configuration overrides** (`Split`, `CommaList`, `ConfigTree`,
  `ConfigOverride`, `ConfigMap`). A configuration is a tree of mutable maps.
  Its leaves are enumerated, named after environment variables, and written
  through a path walker that accepts the nested and the flattened form.
  `ConfigTree` and `ConfigOverride` give the reads, writes and runs as functions
  on values with their laws; `ConfigMap` is the in-place form over heap maps.
- **Secrets** (`SecretStore`, `SecretCache`, `Seeding`). A cache that may hold
  part of a secret in front of a store whose POST replaces a whole secret, the
  token reload after a refusal, update callbacks, and resumable seeding.
- **Token renewal** (`TokenRenewal`, `TokenContexts`). The renewal arithmetic in
  64-bit nanoseconds, the renewal loop, and the contexts that token changes
  create and cancel.
- **Publish/subscribe** (`Broadcaster`, `Polling`). Change detection, bounded
  channels and new-subscriber flags under all interleavings; one polling run.
- **Dependency container** (`Container`, `OverlappingLookups`). Memoised
  construction against plain evaluation, over any life of a container, for lookups
  one at a time and for lookups that overlap.
- **Retry queue** (`RetryQueue`). Conservation and order under all interleavings.
- **Names in paths** (`Escape`, `PathBuilder`). Escaping and its inverse
  (percent-encoding of section 2.1 of RFC 3986), path building and splitting.

Each method of the program is a Dafny method proved against a function on values;
the properties are lemmas about those functions. Go's unspecified map iteration is
a loop that picks any remaining key, so a method's contract holds for every order.
Goroutines are step machines whose traces are all interleavings. What the network,
the server, a clock, the environment or a library call contributes is an argument.
What a goroutine does while it holds a mutex is one step; where the source lets go
of the mutex, as `SetAuthToken` does for its requests, others take steps in between.

Where a property the code suggests does not hold on all inputs, a lemma gives an
input on which it fails and another says exactly when it holds:

- an enumerated path leads back to its leaf: `WalkResolves`, `HiddenLeaf`;
- the override-name table does not depend on map order: `NameTableOrder`,
  `CollidingNamesDependOnOrder`;
- nor does a whole run of the overrides: `WhenOrderMatters`, `CollidingRunsDiffer`;
- a read from inside an update callback is up to date: `CallbackReadIsFresh`,
  `StaleCallbackRead`;
- a write and its update callback leave in the store what they would leave without
  the cache: `WhenCallbacksIgnoreTheCache`, `StaleCopy`;
- resumed seeding ends where seeding without failures ends: `ResumeTheorem`,
  `ResumingOutOfOrder`;
- a token is renewed at all: `RenewalIsOff`, `OverflowTurnsRenewalOff`;
- a token change leaves one live context: `SetTokenLeavesOne`, `ReplacementLeaks`,
  `LeakAfterReplacement`;
- a live context can still be cancelled: `WhenNothingIsLost`, `ChangeLosesContext`;
- a failed token change stops every waiting loop: `WhenAFailedChangeStopsAllLoops`,
  `LoopSurvivesFailedChange`;
- at most one renewal loop is active: `WhenOneLoopIsActive`, `WhenOneLoopRenews`,
  `TwoLoopsOnOneContext`, `TwoLoopsAfterLateTick`;
- a subscriber gets the collapsed stream and last the current payload:
  `WantedIsCollapsed`, `LastQueuedIsCurrent`, `UnmarshallableFirstPayload`;
- an instance equals fresh evaluation after updates: `FreshAfterUpdate`,
  `StaleAfterUpdate`. The condition is exact for constructors that never build the
  same service from different answers they can get, as the one of the failing
  example (`BarIsInjective`); another may be fresh anyway;
- a service is constructed once: `WhenBuiltOnce`, `BuiltTwice`.

As long as no loop replaces the token, a failed change stops every waiting loop
(`FailedChangeStopsAllLoops`); what holds of every run with replacements, those
during a token change included, is in `LoopsAndReplacements`, `WhenNothingIsLost`
and `LostForGood`.

The comment in `pkg/sse/broadcaster.go` on sending only when the data has changed
is followed as the code has it: a payload that does not marshal never counts as
changed, yet is sent to new subscribers and ends their being new.

## Model

| member | source | states |
|---|---|---|
| Split.CutUndoesGlue | pkg/bootstrap/environment/variables.go:145 | Splitting at a separator undoes joining exactly for the non-empty lists of separator-free pieces |
| Split.GlueCut | pkg/bootstrap/environment/variables.go:267 | Joining undoes splitting for every string |
| CommaList.TrimCuts | pkg/bootstrap/environment/variables.go:363 | Trimming removes white space at both ends, all of it, and nothing else |
| CommaList.WhiteSpace | pkg/bootstrap/environment/variables.go:363 | White space is exactly the 25 characters of `unicode.IsSpace` |
| CommaList.ParseCommaSeparatedSlice | pkg/bootstrap/environment/variables.go:358-367 | The loop trims the whole value, splits it at commas and trims each entry |
| CommaList.ParseIsNormal | pkg/bootstrap/environment/variables.go:358-367 | For every input the parsed entries hold no comma and no outer white space, and there is at least one |
| CommaList.ParseUndoesGlue | pkg/bootstrap/environment/variables.go:358-367 | Parsing a comma-joined list gives it back exactly if its entries are comma-free and trimmed and it is not empty |
| CommaList.ParseIsStable | pkg/bootstrap/environment/variables.go:358-367 | Parsing the joined result of a parse gives the same list, for every input |
| ConfigTree.SetThenGet | pkg/bootstrap/environment/variables.go:137-165 | On every tree and path, a written setting is read back exactly when the path does not name a map |
| ConfigTree.SetTwice | pkg/bootstrap/environment/variables.go:258-282 | On every tree and path, the second of two writes wins |
| ConfigTree.SetSame | pkg/bootstrap/environment/variables.go:258-282 | On every tree and path, writing back the value just read changes nothing exactly when the path is present |
| ConfigTree.SetPlaces | pkg/bootstrap/environment/variables.go:258-282 | A written setting lands at the top-level key that is the path, or else at the first key on the way that leads into no map; a path that names a map is not written |
| ConfigTree.SetFrame | pkg/bootstrap/environment/variables.go:258-282 | A write leaves every other leaf, and which walks are leaves, as they were; but writing a top-level key that holds a map removes all leaves below it |
| ConfigTree.WalkResolves | pkg/bootstrap/environment/variables.go:137-186 | An enumerated path is resolved to its own leaf exactly if the leaf is at the top, or its keys are slash-free and the joined path is no top-level key |
| ConfigTree.HiddenLeaf | pkg/bootstrap/environment/variables.go:138-142 | A top-level key that equals a nested leaf's path is read and written in its place |
| ConfigTree.ResolvedAccess | pkg/bootstrap/environment/variables.go:137-165 | A resolving path reads its leaf and writes that leaf only |
| ConfigTree.PutKeepsLeaves | pkg/bootstrap/environment/variables.go:258-282 | Writing a leaf keeps the set of leaves and all other values |
| ConfigTree.FlatIsAddressable | pkg/bootstrap/environment/variables.go:138-142 | In the flattened form every enumerated path leads to its leaf |
| ConfigTree.NestedIsAddressable | pkg/bootstrap/environment/variables.go:144-162 | In the nested form with slash-free keys every enumerated path leads to its leaf |
| ConfigTree.AddressableIsInjective | pkg/bootstrap/environment/variables.go:168-186 | Distinct leaves of such trees have distinct paths |
| ConfigOverride.NameIsSpelled | pkg/bootstrap/environment/variables.go:197-203 | The name of every path, character by character: `/` and `-` become `_`, and all is upper-cased |
| ConfigOverride.WhenNamesCollide | pkg/bootstrap/environment/variables.go:197-203 | Two paths share a name exactly if they have one length and agree at every place up to case and up to `/`, `-`, `_` |
| ConfigOverride.BuildOverrideNames | pkg/bootstrap/environment/variables.go:188-203 | The loop builds the table of the paths' names as they are spelled, each leading to the last path that has it |
| ConfigOverride.NameTableEntries | pkg/bootstrap/environment/variables.go:188-203 | Each name leads to one of the paths that have it and every path's name is there |
| ConfigOverride.NameTableOrder | pkg/bootstrap/environment/variables.go:188-203 | The table is the same for every enumeration order exactly if distinct paths have distinct names |
| ConfigOverride.CollidingNamesDependOnOrder | pkg/bootstrap/environment/variables.go:197-203 | Keys that differ in `-` and `_` only make the table depend on the order |
| ConfigOverride.ConvertsByType | pkg/bootstrap/environment/variables.go:206-256 | For every value and text: which types convert, to what, and which fail or panic; list types take a comma-joined text back to its entries exactly if those are comma-free and trimmed |
| ConfigOverride.ConvertIsStable | pkg/bootstrap/environment/variables.go:206-256 | A converted value is never a map or null, and converting it again from the same text changes nothing |
| ConfigOverride.OverriddenLeaf | pkg/bootstrap/environment/variables.go:117-132 | In the overridden tree the same walks are leaves, and each leaf has its own variable's converted value if that is set, else its old one |
| ConfigOverride.OverrideIsOrderFree | pkg/bootstrap/environment/variables.go:107-135 | Confluence: if the leaves named by variables that are set can be addressed and share no name, then for any visiting order and name table the run succeeds exactly if those leaves all convert, and then tree and count are fixed |
| ConfigOverride.OverridesBySpelling | pkg/bootstrap/environment/variables.go:107-135 | After a successful run each leaf whose path spells a variable that is set has that variable's converted value, all others their old one, and the count is the number of the former |
| ConfigOverride.WhereARunStops | pkg/bootstrap/environment/variables.go:117-132 | An unsuccessful run stops at the first variable visited whose leaf cannot be converted, with exactly the leaves of the variables before it overridden, by an error or, for null, a panic |
| ConfigOverride.NestedLeafIsOverridden | pkg/bootstrap/environment/variables.go:107-135 | The variable `A_B` overrides the leaf "b" of the map "a" and counts once |
| ConfigOverride.RunFollowsTable | pkg/bootstrap/environment/variables.go:107-135 | Also with leaves that share names: if the leaves named by variables that are set can be addressed, a run in any order overrides exactly those the name table leads to |
| ConfigOverride.WhenOrderMatters | pkg/bootstrap/environment/variables.go:107-135 | Two runs with name tables from different enumerations give the same tree exactly if every leaf that only one of the tables leads to has its variable's value already |
| ConfigOverride.CollidingRunsDiffer | pkg/bootstrap/environment/variables.go:188-203 | With keys that differ in `-` and `_` only, a whole run changes one leaf or the other depending on the enumeration |
| ConfigOverride.FlatAndNestedAgree | pkg/bootstrap/environment/variables.go:107-135 | Overriding the nested form and flattening equals overriding the flattened form, with equal counts, for any two orders; one run succeeds iff the other does |
| ConfigOverride.OverrideIsIdempotent | pkg/bootstrap/environment/variables.go:107-135 | A second run after a successful one succeeds with the same result and count |
| ConfigMap.Load | pkg/bootstrap/environment/variables.go:87-91 | Every configuration value can be held in a tree of maps that satisfies the model's invariant |
| ConfigMap.GetConfigMapValue | pkg/bootstrap/environment/variables.go:137-165 | The cursor loop reads what `ConfigTree.Get` says, for every path |
| ConfigMap.SetConfigMapValue | pkg/bootstrap/environment/variables.go:258-282 | The in-place write changes the whole nested value as `ConfigTree.Set` says and keeps the maps a tree |
| ConfigMap.BuildPaths | pkg/bootstrap/environment/variables.go:168-186 | In any map order it ends and lists the path of every non-map leaf exactly once |
| ConfigMap.ConvertToType | pkg/bootstrap/environment/variables.go:206-256 | A map or an unsupported value is rejected, null panics, other values convert by their type |
| ConfigMap.OverrideOne | pkg/bootstrap/environment/variables.go:123-129 | Reads, converts, and writes only if the conversion succeeded |
| ConfigMap.ApplyVariables | pkg/bootstrap/environment/variables.go:117-134 | The loop in any order equals the fold over that order, also when it stops at a failed conversion |
| ConfigMap.OverrideConfigMapValues | pkg/bootstrap/environment/variables.go:107-135 | On every input the result is that of one enumeration and order; if the leaves whose variables are set can be addressed, those in the name table are overridden and counted, or the run fails; if they share no name, neither enumeration nor order matters, and the leaves overridden are those whose paths spell a variable |
| SecretStore.SelectKeys | pkg/secrets/openbao/secrets.go:60-82 | No keys give all values; else exactly the requested values, or the list of those not found |
| SecretStore.MissingKeys | pkg/secrets/openbao/secrets.go:65-80 | The list of keys not found holds exactly the requested keys the secret lacks |
| SecretStore.ReadOutcome | pkg/secrets/openbao/secrets.go:52-83 | When a read succeeds, exactly with what, and which error it gives otherwise |
| SecretStore.Client.GetSecret | pkg/secrets/openbao/secrets.go:52-83 | A served read answers from the store with the not-found and no-values errors, another reply is an error |
| SecretStore.Client.StoreSecret | pkg/secrets/openbao/secrets.go:350-392 | A served POST replaces the secret, an error leaves the store alone, an empty secret is not sent |
| SecretCache.SecureProvider.GetSecretsCache | pkg/bootstrap/secret/secure.go:120-148 | Answers exactly if keys are asked for and all of them are cached, with exactly those keys |
| SecretCache.SecureProvider.UpdateSecretsCache | pkg/bootstrap/secret/secure.go:150-162 | In any map order the new values are merged over the cached ones; no other key and no other secret changes |
| SecretCache.SecureProvider.ReloadTokenOnAuthError | pkg/bootstrap/secret/secure.go:200-222 | Retries exactly after a refusal with a token loaded and accepted, else reports the failing stage |
| SecretCache.SecureProvider.GetSecret | pkg/bootstrap/secret/secure.go:91-118 | The read step on cache and store; whatever is returned is cached afterwards; the error of a provider without client |
| SecretCache.SecureProvider.SecretUpdatedAtSecretName | pkg/bootstrap/secret/secure.go:385-401 | The secret's own callback runs before the wildcard one, and may in turn read, store, register and deregister through the same provider, choosing each use by the answers so far |
| SecretCache.SecureProvider.Perform | pkg/bootstrap/secret/secure.go:391-400 | One use of the provider by a callback is the corresponding step |
| SecretCache.SecureProvider.StoreSecret | pkg/bootstrap/secret/secure.go:168-198 | The write step: the store, then the callback with what it is told, then the cache dropped and the update time set |
| SecretCache.SecureProvider.RegisterSecretUpdatedCallback | pkg/bootstrap/secret/secure.go:373-382 | Registers unless one is registered for the name already, which is an error |
| SecretCache.SecureProvider.DeregisterSecretUpdatedCallback | pkg/bootstrap/secret/secure.go:404-407 | Removes the name's callback |
| SecretCache.AfterRegistering | pkg/bootstrap/secret/secure.go:373-401 | After a registration the name's own callback is the one to run, others keep theirs or get the wildcard one; a second registration is refused |
| SecretCache.AfterDeregistering | pkg/bootstrap/secret/secure.go:385-407 | After a deregistration only the wildcard callback is left for the name |
| SecretCache.RunIgnoresCache | pkg/bootstrap/secret/secure.go:168-198 | If the callbacks' uses are fixed in advance, store and callbacks after any run do not depend on the cache, not even on a stale one |
| SecretCache.ReadAnswers | pkg/secrets/openbao/secrets.go:52-83 | A successful answer is the whole secret without keys, else exactly the requested keys with the store's values |
| SecretCache.FetchOutcome | pkg/bootstrap/secret/secure.go:91-118 | A read call's answer, or the stage that failed, for every combination of replies and token reload |
| SecretCache.PostCallOutcome | pkg/bootstrap/secret/secure.go:168-185 | A write call that is served replaces that secret alone, a failing one changes nothing and names the failing stage, an empty secret is not sent |
| SecretCache.ReadRefines | pkg/bootstrap/secret/secure.go:91-118 | A read that gets through or is cached answers as the store does, and any other reports the failed call; the cache stays coherent |
| SecretCache.AnswersOfTheMoment | pkg/bootstrap/secret/secure.go:91-198 | In every run, whatever the callbacks do, between two uses of the provider the cache agrees with the store, and a read answers what the store holds at that moment or reports a call that did not get through |
| SecretCache.CachedRunRefinesDirectRun | pkg/bootstrap/secret/secure.go:91-198 | Over every run, with failures and with callbacks that act on their answers, it answers as the store without cache does, up to reported failures, and leaves the same store, if at each write whose callback is not fixed in advance the cache does not contradict the new values and the callback's reads get through or are cached |
| SecretCache.WhenCallbacksIgnoreTheCache | pkg/bootstrap/secret/secure.go:168-198 | A successful write has the effect it would have without the cache, for every callback whose reads get through and whose own writes call callbacks fixed in advance, exactly if the cached entry is absent or agrees with the new values |
| SecretCache.StaleCopy | pkg/bootstrap/secret/secure.go:187-194 | A callback that keeps a copy of a new password copies the old one from the cache |
| SecretCache.OutageRead | pkg/bootstrap/secret/secure.go:120-148 | Reads that do not get through succeed exactly if they have keys and all are cached |
| SecretCache.ReadFills | pkg/bootstrap/secret/secure.go:110-162 | A successful read adds what it returned to what is cached; nothing cached before, for this or another secret, is lost or changed |
| SecretCache.ReadServesOutages | pkg/bootstrap/secret/secure.go:91-162 | After a successful read any later read of keys it returned gets the same values, even if no request gets through, until a write succeeds |
| SecretCache.SecondReadIsServed | pkg/bootstrap/secret/secure.go:91-162 | A password read once is answered again when the connection is lost |
| SecretCache.ReadAfterWrite | pkg/bootstrap/secret/secure.go:91-198 | After a successful write a read gets exactly what was written, and other secrets as they were |
| SecretCache.WriteDropsCache | pkg/bootstrap/secret/secure.go:187-194 | After a successful write nothing is answered from the cache |
| SecretCache.CallbackReadIsFresh | pkg/bootstrap/secret/secure.go:187-194 | A callback's read is up to date exactly if the cache does not answer it, answers for another secret, or holds the values just written |
| SecretCache.StaleCallbackRead | pkg/bootstrap/secret/secure.go:187-194 | A callback can be given the value from before the write it is called for |
| Seeding.CheckSecretData | pkg/bootstrap/secret/types.go:59-68 | Names exactly the unimported entries without data; passes iff there are none |
| Seeding.PrepareSecret | pkg/bootstrap/secret/secure.go:320-329 | The trimmed name, and exactly the keys of the pairs, each with the value of its last pair |
| Seeding.DataMapHasPairs | pkg/bootstrap/secret/secure.go:320-324 | A key is in the secret exactly if a pair has it, with the value of the last such pair |
| Seeding.PostOutcome | pkg/bootstrap/secret/secure.go:168-185 | A store call succeeds exactly if it gets through or there is nothing to send, and then alone changes the store |
| Seeding.SeedSecrets | pkg/bootstrap/secret/secure.go:280-318 | The in-place loop stores, marks and scrubs exactly the unimported entries whose calls go through, reports the others, and leaves the last stored entry of each name in the store pair by pair |
| Seeding.FailuresReported | pkg/bootstrap/secret/secure.go:289-301 | The failures reported are the names of the entries not stored, once each and in order |
| Seeding.SeedEntry | pkg/bootstrap/secret/secure.go:289-309 | After a run an entry is marked imported with no data left if it was unimported and stored, else unchanged |
| Seeding.SeedKeepsFileValid | pkg/bootstrap/secret/types.go:46-71 | The rewritten file passes the validation that the original passed |
| Seeding.SeedsKeepFileValid | pkg/bootstrap/secret/types.go:46-71 | So does the file after any number of runs |
| Seeding.StoredAtMostOnce | pkg/bootstrap/secret/secure.go:280-318 | Over any runs with any failures each entry is stored at most once, exactly those that became imported, and all others are unchanged |
| Seeding.SeedsReflect | pkg/bootstrap/secret/secure.go:280-318 | The store then has the imported entries' data and is otherwise as before, if equal names have equal data |
| Seeding.SeedsHoldPairs | pkg/bootstrap/secret/secure.go:280-329 | After any number of runs every entry that became imported has its pairs in the store, if equal names have equal data |
| Seeding.LastStoredWins | pkg/bootstrap/secret/secure.go:289-309 | Of the entries stored under one name in a run the last decides |
| Seeding.StoreHoldsPairs | pkg/bootstrap/secret/secure.go:280-329 | After a run the store has, under the trimmed name of the last entry stored with it, that entry's keys with their last values |
| Seeding.OtherNamesAreKept | pkg/bootstrap/secret/secure.go:280-318 | A name under which no entry is stored is as it was |
| Seeding.BothKeysAreStored | pkg/bootstrap/secret/secure.go:280-329 | An entry with a user name and a password stores both |
| Seeding.ResumeTheorem | pkg/bootstrap/secret/secure.go:280-318 | Whatever failed on the way, a fully imported file leaves the store of one failure-free run, exactly if equal trimmed names have equal data |
| Seeding.ResumingOutOfOrder | pkg/bootstrap/secret/secure.go:289-309 | Of two entries for one name the first, failing at first, is stored last |
| TokenRenewal.IntervalOfPeriod | pkg/secrets/openbao/secrets.go:183-190 | The interval is exactly half the period and leaves at least half a second of it |
| TokenRenewal.SlackIsExact | pkg/secrets/openbao/secrets.go:183-253 | For each token and each moment of the start-up renewal, the largest lateness of ticks that never finds it expired is half the period or, if less, what the looked-up time to live leaves after the first interval |
| TokenRenewal.HalfASecondIsExact | pkg/secrets/openbao/secrets.go:183-253 | For every period, time to live and moment of the start-up renewal for which start-up succeeds, and every run, ticks served less than half a second late never find the token expired, and half a second is the largest such bound |
| TokenRenewal.RenewalIsOff | pkg/secrets/openbao/secrets.go:184-190 | Renewal is off exactly for the periods whose nanoseconds wrap round to at most one, so never for a positive period within 64 bits |
| TokenRenewal.OverflowTurnsRenewalOff | pkg/secrets/openbao/secrets.go:184-190 | The first period beyond the 64-bit range of nanoseconds switches renewal off |
| TokenRenewal.WrapIsCongruent | pkg/secrets/openbao/secrets.go:184 | Durations are the values of the 64-bit range that differ by a multiple of 2^64 |
| TokenRenewal.HalfTruncates | pkg/secrets/openbao/secrets.go:185 | Halving rounds toward zero |
| TokenRenewal.WhenStartUpFails | pkg/secrets/openbao/secrets.go:170-210 | Start-up fails exactly if the lookup fails, or the token is renewable with a positive interval, has no more than that to live and the renewal does not succeed; a loop is started exactly for the other renewable tokens with a positive interval, and with which interval |
| TokenRenewal.DoTokenRefreshPeriodically | pkg/secrets/openbao/secrets.go:212-253 | The loop keeps its token over successful renewals, takes the file's other token over refused ones, and ends at the first event to end at with that event's reason |
| TokenRenewal.TokensOfARun | pkg/bootstrap/secret/secure.go:236-254 | From the events alone: each token is the file's at the last refused renewal, and the loop ends at the first event to end at, for its reason, or runs on |
| TokenRenewal.WhyALoopEnds | pkg/secrets/openbao/secrets.go:212-253 | Event by event: what keeps the loop going and with which token, and which event ends it for which reason |
| TokenRenewal.RunIsDetermined | pkg/secrets/openbao/secrets.go:212-253 | The events determine the tokens used and the way the loop ends |
| TokenContexts.Client.RefreshToken | pkg/secrets/openbao/secrets.go:170-210 | When start-up fails, and that the watched context changes exactly when it succeeds for a renewable token with a positive interval |
| TokenContexts.Client.SetAuthToken | pkg/secrets/openbao/secrets.go:91-124 | The whole new state of an undisturbed token change from the lookup and the renewal: a failed lookup or a failed renewal that is due cancels the new context and deletes the entry, all else records it |
| TokenContexts.SetTokenInSteps | pkg/secrets/openbao/secrets.go:91-124 | Undisturbed, what happens before the requests, at their outcome and under the mutex at the end make up one token change |
| TokenContexts.SetTokenLeavesOne | pkg/secrets/openbao/secrets.go:91-124 | A token change leaves at most its own context live exactly if everything live was recorded under the current or the new token |
| TokenContexts.AtMostOneLiveContext | pkg/secrets/openbao/secrets.go:91-124 | Over any sequence of token changes with any outcomes every context is cancelled but possibly the one recorded under the current token |
| TokenContexts.ReplacementLeaks | pkg/secrets/openbao/secrets.go:237-243 | After the loop replaced the token the next change leaves one context exactly if none was live or the live one is recorded under the replacement or the new token too |
| TokenContexts.LeakAfterReplacement | pkg/secrets/openbao/secrets.go:237-243 | A replacement followed by a third token leaves two contexts live |
| TokenContexts.LiveContextsAreBounded | pkg/secrets/openbao/secrets.go:91-124 | Over any sequence of token changes and replacements that do not overlap every live context stays recorded under some token, and at most one more than the replacements is live |
| TokenContexts.LoopsStayWatched | pkg/secrets/openbao/secrets.go:204-220 | In every interleaving of loops with the steps of token changes, until a loop replaces the token, a waiting loop watches a cancelled context or the client's current one, and at most one context is live |
| TokenContexts.LoopsAndReplacements | pkg/secrets/openbao/secrets.go:91-243 | In every interleaving, replacements during token changes included, at most one more context is live than tokens were replaced outside of changes |
| TokenContexts.RecordingLosesNothing | pkg/secrets/openbao/secrets.go:111-121 | The end of a change records under the token then in use; it makes no live context unreachable exactly if what is recorded there is already cancelled |
| TokenContexts.WhenNothingIsLost | pkg/secrets/openbao/secrets.go:91-243 | In every run all live contexts can be cancelled throughout exactly if no change ends by overwriting or deleting the entry of a live context |
| TokenContexts.NothingIsLostOutsideChanges | pkg/secrets/openbao/secrets.go:91-243 | Nothing is lost in runs that replace tokens only while no token change is under way |
| TokenContexts.LostForGood | pkg/secrets/openbao/secrets.go:91-124 | A live context that is no longer recorded is never cancelled again, in any run |
| TokenContexts.ChangeLosesContext | pkg/secrets/openbao/secrets.go:111-121 | A loop that puts back the first token during a change leaves a context that is watched and live but recorded nowhere |
| TokenContexts.FailedChangeStopsAllLoops | pkg/secrets/openbao/secrets.go:112-116 | Until a loop replaces the token, after a failed token change and until the next one every waiting loop's context is cancelled |
| TokenContexts.WhenAFailedChangeStopsAllLoops | pkg/secrets/openbao/secrets.go:91-124 | In every run, replacements included, after a failed change every waiting loop's context is cancelled exactly if each watches one that was cancelled before, or recorded under the token in use or the new token at its start |
| TokenContexts.LoopSurvivesFailedChange | pkg/secrets/openbao/secrets.go:237-243 | After a replacement a loop can wait on a live context although the last change failed |
| TokenContexts.WhenOneLoopIsActive | pkg/secrets/openbao/secrets.go:204-253 | In every run at most one loop is active throughout exactly if no loop is started, and no tick is taken on a cancelled context, while another loop is active |
| TokenContexts.WhenOneLoopRenews | pkg/secrets/openbao/secrets.go:204-253 | Without replacements that is: exactly if no loop is between waits when another is started, and no tick is taken on a cancelled context while a loop is active |
| TokenContexts.WhenAWaitingLoopCanStop | pkg/secrets/openbao/secrets.go:217-225 | A waiting loop can stop exactly if its context is cancelled, and can take a tick in either case |
| TokenContexts.TwoLoopsOnOneContext | pkg/secrets/openbao/secrets.go:217-225 | A loop that is renewing while the token changes comes back to watch the new context beside the new loop |
| TokenContexts.TwoLoopsAfterLateTick | pkg/secrets/openbao/secrets.go:217-225 | A waiting loop that takes a tick after its context was cancelled does the same |
| Broadcaster.AtomicString.CompareAndSwap | pkg/common/atomic.go:31-39 | Stores the value and says whether it differed |
| Broadcaster.Broadcaster.Subscribe | pkg/sse/broadcaster.go:59-70 | A new open channel, empty, whose subscriber is new |
| Broadcaster.Broadcaster.Unsubscribe | pkg/sse/broadcaster.go:73-84 | Removes and closes; panics exactly on a channel closed before, leaving the lock held; reports the last one leaving |
| Broadcaster.Broadcaster.ShouldSendUpdate | pkg/sse/broadcaster.go:140-151 | Changed iff the payload marshals to another hash than the last one, which it replaces |
| Broadcaster.Broadcaster.Publish | pkg/sse/broadcaster.go:100-118 | In any map order each subscriber is offered the payload once, and never on a closed channel |
| Broadcaster.WantedIsCollapsed | pkg/sse/broadcaster.go:100-151 | What a subscriber is owed is the published stream of what marshals with runs of equal digests collapsed, exactly if its first payload marshals |
| Broadcaster.LastWanted | pkg/sse/broadcaster.go:140-151 | The last payload owed has the current hash exactly if the first payload heard marshals or a later one changes the hash from before it |
| Broadcaster.UnmarshallableFirstPayload | pkg/sse/broadcaster.go:141-145 | After a first payload that does not marshal a subscriber can miss the current one |
| Broadcaster.ChannelsAreSafe | pkg/sse/broadcaster.go:59-118 | In every trace payloads go to open channels, queues hold at most 64, a payload is dropped only if 64 wait, and a new subscriber's first payload is never dropped |
| Broadcaster.StreamOfASubscriber | pkg/sse/broadcaster.go:59-118 | In every trace what was queued is what was owed less the dropped payloads in order; without drops the collapsed stream, exactly if the first payload heard marshals |
| Broadcaster.KeptInOrder | pkg/sse/broadcaster.go:106-116 | What is kept of the owed payloads is in order and complete but for the dropped ones |
| Broadcaster.HeardSinceJoining | pkg/sse/broadcaster.go:59-118 | In every trace a subscriber is offered every publication since it subscribed, in order, once |
| Broadcaster.CanPublish | pkg/sse/broadcaster.go:100-118 | From every reachable state between publications any payload can be published without waiting for readers, and every subscriber then hears it |
| Broadcaster.LastQueuedIsCurrent | pkg/sse/broadcaster.go:100-151 | Between publications a subscriber was last queued a payload with the current hash exactly if: the last one it was owed was not dropped and the first one it heard marshals or a later one changes the hash from before it; or it was dropped and what was queued last has its digest, which is never so if nothing else was dropped in between |
| Polling.PollingRun | pkg/sse/polling.go:62-121 | In every interleaving the log is rounds of one poll and one publication, at least one before the end, then the stop callback once, the end, and only then returns from `Stop`, apart from those before the start |
| Polling.CancelledExactly | pkg/sse/polling.go:62-121 | The polling is cancelled exactly from the first `Stop` after the start or publication of data that met the stop condition, and ends only then |
| Polling.StopWaits | pkg/sse/polling.go:72-80 | A `Stop` that returns after the start finds the wait group at zero only once the goroutine has polled, run its callback and ended |
| Polling.CanEnd | pkg/sse/polling.go:82-121 | Once cancelled the goroutine can end by itself in at most five steps, which lets `Stop` return |
| Polling.CanPollAgain | pkg/sse/polling.go:105-121 | While it waits it can always poll again, and can end exactly if cancelled |
| Container.Container.Update | pkg/di/container.go:105-114 | Registers the constructors and forgets exactly their own instances |
| Container.Container.Get | pkg/di/container.go:119-137 | The recursive lookup equals memoised evaluation, including what is cached and constructed |
| Container.Container.RunConstructor | pkg/di/container.go:125-128 | A constructor's requests are served one after the other by the same container |
| Container.MemoIsEval | pkg/di/container.go:119-130 | The answer equals plain recursive evaluation, and what is cached does, apart from services that depend on suspect ones |
| Container.MemoBuildsOnce | pkg/di/container.go:125-128 | One lookup constructs each service at most once, none that was cached, and caches exactly what it constructed |
| Container.SecondLookup | pkg/di/container.go:119-130 | A repeated lookup gives the same instance and constructs nothing |
| Container.LaterLookup | pkg/di/container.go:119-130 | So does one after any other lookups, until an update |
| Container.SameWhereUntouched | pkg/di/container.go:105-130 | Evaluation depends only on the constructors of the service and its transitive dependencies |
| Container.UpdateKeepsFresh | pkg/di/container.go:105-114 | After an update cached instances with no updated transitive dependency still equal fresh evaluation |
| Container.FreshAfterUpdate | pkg/di/container.go:105-130 | A cached instance equals fresh evaluation if what its constructor asks for evaluates as before, and only if, for constructors that never build the same service from different answers they can get |
| Container.BarIsInjective | pkg/di/container.go:105-130 | The constructor of the stale example is of that kind |
| Container.GetIsEvaluation | pkg/di/container.go:105-137 | Over any life of a container with one lookup at a time `Get` equals plain evaluation unless a dependency was updated behind a cached instance, and nothing is constructed twice between registrations |
| Container.UpdatesFirst | pkg/di/container.go:105-137 | With all updates before all lookups every `Get` is plain evaluation |
| Container.StaleAfterUpdate | pkg/di/container.go:105-114 | A service built from a replaced one keeps the old instance |
| OverlappingLookups.OverlappingLookupsAnswerAlike | pkg/di/container.go:119-137 | However lookups overlap under the read lock, each answers what it would have answered alone, and so is what is kept for each service |
| OverlappingLookups.CallsAreAnswered | pkg/di/container.go:132-137 | Of overlapping lookups each is answered once, for the service it asked for, unless it still runs |
| OverlappingLookups.WhenBuiltOnce | pkg/di/container.go:125-137 | Once all overlapping lookups have returned, a service was constructed at most once exactly if no two of them were constructing it at the same time |
| OverlappingLookups.BuiltTwice | pkg/di/container.go:125-137 | Two goroutines that ask for the same new service both construct it |
| OverlappingLookups.OverlappingGetIsEvaluation | pkg/di/container.go:105-137 | Over any life of a container with lookups that overlap in any way between updates every answer is plain evaluation unless a dependency was updated behind a cached instance |
| RetryQueue.MemoryQueue.Enqueue | pkg/re_exec/queue.go:67-79 | Accepts at the end exactly while there is room |
| RetryQueue.MemoryQueue.Dequeue | pkg/re_exec/queue.go:82-89 | Removes the first item if there is one |
| RetryQueue.MemoryQueue.Peek | pkg/re_exec/queue.go:92-101 | The first item, or the zero value |
| RetryQueue.MemoryQueue.Arrive | pkg/re_exec/queue.go:67-79 | Of repeated additions the first ones are accepted, in order, and others rejected only at the limit |
| RetryQueue.MemoryQueue.RetryRound | pkg/re_exec/queue.go:121-130 | With items added during every attempt the round removes exactly the items that succeeded, in order, and ends empty or at the first failure; of the added items the first of each batch are accepted, all unless the queue is full |
| RetryQueue.NothingLostNothingTwice | pkg/re_exec/queue.go:67-133 | In every interleaving accepted items are processed then pending ones, the limit holds, and each attempt is at the item whose place is the number of successes so far |
| RetryQueue.RemovesWhatSucceeded | pkg/re_exec/queue.go:122-128 | In every interleaving the item removed is the one that just succeeded |
| RetryQueue.AcceptedWhileThereIsRoom | pkg/re_exec/queue.go:67-79 | In every interleaving an item is accepted, at the end, exactly while there is room |
| RetryQueue.FailureEndsTheRound | pkg/re_exec/queue.go:111-130 | After a failed attempt nothing is tried before the loop has woken up again |
| RetryQueue.WhyTheLoopSleeps | pkg/re_exec/queue.go:111-130 | A round ends only at a failure or when the queue is empty |
| RetryQueue.CanDrain | pkg/re_exec/queue.go:111-133 | From every reachable state of the running loop, if attempts succeed, all that was accepted can be processed |
| Escape.ChainIsEncoder | pkg/common/utils.go:9-18 | The chain of replacements equals one byte-by-byte encoder |
| Escape.EscapeOfByte | pkg/common/utils.go:9-18 | A digit, a letter or one of `$&=:@` stays; any other byte becomes `%` and two upper-case hexadecimal digits |
| Escape.EscapeOfConcat | pkg/common/utils.go:9-18 | A name is escaped byte by byte |
| Escape.SelfEscapes | pkg/common/utils.go:9-18 | A name is its own escape exactly if it has digits, letters and `$&=:@` only |
| Escape.EscapingIsInvertible | pkg/common/utils.go:9-18 | Percent-decoding succeeds on every output and gives back the input |
| Escape.EscapingIsInjective | pkg/common/utils.go:9-18 | Different names are escaped differently |
| Escape.EscapedNamesAreClean | pkg/common/utils.go:9-18 | No output contains a slash or one of the additionally escaped bytes |
| PathBuilder.Builder.SetPath | pkg/common/utils.go:34-37 | Adds a fixed segment |
| PathBuilder.Builder.SetNameFieldPath | pkg/common/utils.go:40-46 | Adds a name, escaped if escaping is on at that time |
| PathBuilder.Builder.BuildPath | pkg/common/utils.go:48-50 | The path is the segments joined by slashes, for any calls |
| PathBuilder.SplitUndoesBuild | pkg/common/utils.go:29-50 | Splitting a path gives its segments back exactly if there is one and unescaped fields are slash-free; unescaped fields are then there as they were set, escaped ones decode to themselves |

## Left out

- `OverrideConfiguration`'s conversion between the service's struct and the map, and reading the process environment.
- Strings are sequences of characters, and upper-casing is one character to one; invalid UTF-8 is not modelled. White space is that of Go's `unicode.IsSpace`.
- `strconv` parsing inside `convertToType`: a function of the target type and the text that fails or gives a value of that type.
- Maps inside a configuration other than `map[string]any`, on which `buildPaths` panics.
- The map a `GetSecret` returns can be the very map kept in the cache; secrets are values here, so a caller changing a returned map is not modelled.
- Overlapping `GetSecret` and `StoreSecret` calls, overlapping `SetAuthToken` calls, several publishers at once, starting a `Polling` twice, and callers other than the loop removing from the retry queue.
- Error texts: an error counts as a refusal by its status 403, not by a substring that a key name might also contain.
- A store request whose effect takes place although its reply is an error, and other clients that write to the same store: what is cached is compared with a store that only this provider writes.
- Seeding.SeedSecrets: says what happens to the entries in every case, but to the store only if the update callbacks store no secrets of their own meanwhile.
- A failure to marshal the seeding file back to JSON, a secret file entry whose data is JSON `null`, reading and writing that file, and its start-up retries.
- HTTP requests, JSON and YAML encoding, SHA-256, logging and metrics.
- TokenRenewal.HalfASecondIsExact: leaves out periods whose nanoseconds exceed 64 bits, which are over 292 years; `RenewalIsOff` says which of them are never renewed. Token details are those the server reports, and the ticker drops no tick.
- TokenRenewal.SlackIsExact: leaves out the same periods, for the same reason.
- Cancellation of the context that the caller passes to `SetAuthToken`.
- Calls on a broadcaster whose lock a double close has left held: they never return.
- Channels that a reader drains after unsubscribing; the topic map and the HTTP streaming of `pkg/sse/manager.go` and `pkg/sse/handler.go`.
- The polling goroutine is a step machine rather than a class; fetched data and error responses are not told apart in its log.
- Cyclic or non-terminating service constructors, on which `get` does not return, and constructors with effects of their own; a constructor carries a bound on its remaining requests. Update callbacks carry one too, and one on how deep the callbacks of their own writes nest.
- An instance is a value: two constructions of one service count as two, but their results are not told apart. Go may abort a program in which overlapping lookups write the service map at the same moment; that is not modelled.
- The order in which goroutines see the unprotected fields of the token client; each read and write of them is one step.
- The retry queue's generic item type: items are told apart by a number.
- BACnet tables, log filters, HTTP status mapping, error wrapping, URL building, OAuth2, JWT and TLS code: tables, library calls and input/output.
