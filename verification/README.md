# Selenwright: a verified model

Selenwright starts a browser in a container for every test session and relays
WebDriver and Playwright traffic to it. This project models the parts of it
that are hard to get right, in Dafny 4.11, and proves what they keep.
`dafny verify dfyconfig.toml` checks everything.

**Sessions and slots.** `Queue` is the admission queue as an object, over the
counters of `Gauges`. `Slots` is the whole server as a step system: any number
of requests of both protocols, any number of DELETE calls, one atomic operation
per step, any interleaving. `Draining` shows from which of its states the
server can be emptied again.
`Playwright` follows one Playwright request from its early-cleanup stack to the
once-only cleanup that five triggers race for. `Create` is the WebDriver
handler with all its exits and its retry loop. `Watchdog` is the idle watchdog,
first one call at a time, then every load, store and swap of any number of
calls interleaved; each call is shown to be its steps. `Handlers` gives the
exact course of a request's life in any run, and shows that both handlers take
it through those steps.

**Events and logs.** `EventPool` is the job channel with its two-step publish
and its shutdown. `LogSink` is the append-only log with its wake-up channels,
and any number of readers that follow it.

**Tokens and groups.** `TokenStore` keeps API tokens in an array edited in
place beside a prefix index, and a state machine of all operations, restarts
and failing saves. `Groups` reads group membership from a file and decides who
may operate on a session.

**Versions, catalog, updates.** `SemVer` reads, prints and orders tags;
`Candidates` picks the newer ones; `ImageRef` reads image references;
`StackPlan` plans an update and renders the compose override; `Shell` builds
the updater script and reads it back as a POSIX shell would; `Updates` follows
a plan through both into the file on disk. `Catalog` and
`Discovery` build the browser catalog from image labels; `Find` looks a browser
up in it; `State` reports every running session.

`Seqs`, `Sorting` and `Text` hold what these share. Go's maps are visited in an
arbitrary order: wherever a loop does so, that order is a parameter and the
results hold for each. `Sorting.SortedUnique` shows where the choice of sorting
algorithm cannot matter.

## What the proofs found

* A DELETE sent to `/wd/hub/session/<id>` for a *Playwright* id releases the
  slot in `proxy` (selenwright.go:626-627) and again in the cleanup it then
  calls. Two DELETEs that both look a WebDriver session up before either
  removes it (selenwright.go:593) also release twice. `held` then falls below
  zero in the model where the semaphore library would panic.
  `Slots.ReturnedOnceIffGuarded` and `Playwright.ExactGiveBacks` give the exact
  condition; `Slots.PlaywrightSessionReturnsTwice` and
  `Slots.OverlappingDeletesReturnTwice` are runs that break it.
* The gauge `used` falls below zero exactly when more sessions have been
  released before their `Create` than are running: `Slots.UsedExactly`,
  `Slots.UsedStaysUp`, `Slots.UsedMayDipBelowZero`.
* The server can be emptied again exactly when no WebDriver session has been
  lost. One is lost, its slot for good, when another session is put under its
  id, or an earlier one with the same id is removed, before a DELETE has found
  it. Neither Put asks whether the id is taken (playwright.go:359,
  selenwright.go:415); the one check there is comes before the service is
  started (playwright.go:480): `Draining.DrainableExactly`,
  `Draining.DrainsIffKeepsAll`, `Draining.SessionMayBeLost`.
* `SeedFromPlaintext` says it does nothing when a record with the plaintext
  exists (protect/token.go:160-164). It does nothing exactly when the first such
  record has not expired; else it adds a second one, which `Lookup` never
  reaches while the first is stored: `TokenStore.AddedTokenAnswers`,
  `TokenStore.SeedBehindExpired`.
* A revocation whose save fails is undone by the next restart:
  `TokenStore.RestartAfterRevocation`.
* `compareVersions` orders a version among the orderly ones exactly when it is
  orderly itself: each of its segments scans as a number if and only if it
  starts with a digit. A number behind a sign or a
  blank, or one beyond 64 bits, puts the version into a cycle; a sign
  without a number does not: `Catalog.OrderedExactly`, `Catalog.OrderlyMeans`.
* After the replacement in `buildUpdaterShellSnippet` the text still contains
  the here-document delimiter exactly when two of them shared underscores
  (`Shell.DelimiterRemainsExactly`), but never as a whole line, which is what
  matters (`Shell.SnippetReads`).
* The override file holds exactly the rendered text if and only if that ends in
  one newline and does not contain the delimiter: `Updates.PlanIsWritten`. Its
  services and images can be told apart again exactly when none has a line break
  in it: `StackPlan.OverrideReads`.
* Pins are written without their registry, so the reference of a running
  service survives exactly when it is on Docker Hub and its tag does not end in
  a blank: `StackPlan.ImagesReadBack`, `StackPlan.RegistryIsLost`.
* The comments on `stackUpdatePlanEntry` (stack_update.go:388-393) call the tag
  canonical; the code uses the tag as published, and so does the model.
* `Config.Find` is independent of map order exactly when a key is exact, when
  every entry other than Playwright's that shares the prefix is nil, or when at
  most one does: `Find.OrderFreeExactly`.

## Model

| member | source | states |
|---|---|---|
| Queue.Queue.HasFreeSlot | protect/queue.go:97-103 | the probe of Try and Check answers whether a permit is free, leaves every counter as it was, and is the server's take and return of a permit |
| Queue.Queue.Try | protect/queue.go:33-42 | refuses exactly a request that would not wait when no permit is free, and leaves every counter as it was; the server's steps in either case |
| Queue.Queue.Check | protect/queue.go:44-54 | refuses exactly when queueing is disabled and no permit is free, and leaves every counter as it was; the server's steps in either case |
| Queue.Queue.Protect | protect/queue.go:56-74 | an admitted request holds one permit and counts once as pending, a refused one changes nothing; both are the server's atomic steps in order |
| Queue.LeavesWithoutSession | protect/queue.go:56-79 | Protect and then Drop leave every counter as it was, whether the request was admitted or not |
| Queue.ServesSession | protect/queue.go:56-89 | Protect, Create and Release leave every counter as it was |
| Queue.Queue.Release | protect/queue.go:86-89 | for any state with the queue's counters, the two steps of a cleanup's or a DELETE's release |
| Handlers.RunWalks | playwright.go:163-380 | in every run, whatever others do in between, the steps a served request takes itself are one of the two ways on from Serving |
| Handlers.ServedEnds | protect/queue.go:76-84 | a served request has ended without a session exactly when its own steps were Drop's, and has one exactly when they were Put and Create's |
| Handlers.LifeExactly | protect/queue.go:33-89 | in every run, from a request's arrival on, its own steps are exactly those of the place where it stands: the probes of Try and Check exactly for a request that would not wait and for disabled queueing, the four ways of leaving without a session, the one way to have one |
| Handlers.RefusedExactly | protect/queue.go:33-79 | a step ends a request without a session if and only if it is Try on one that would not wait or Check with queueing disabled, each with no permit free, or the end of a given-up wait, or the end of Drop |
| Handlers.NeverRefused | protect/queue.go:33-54 | with queueing enabled a request that may wait leaves without a session only by giving up or being dropped |
| Handlers.ServeWebDriver | selenwright.go:114-420 | every exit of the WebDriver handler is Drop's steps, or Put and Create's exactly when the service is started and registered |
| Handlers.ServePlaywright | playwright.go:225-360 | the Playwright handler gives back one Drop on every early exit and takes Put and Create's steps after the hand-off |
| Slots.StepKeeps | protect/queue.go:33-103 | each atomic step of any request, cleanup or DELETE keeps the invariant tying every counter to what the requests have done |
| Slots.SlotAccounting | protect/queue.go:56-103 | after any run: permits out never exceed the limit; used + pending stays within them, with equality exactly when no request is mid-step; permits out equal their owners exactly when none was returned twice; the session map never exceeds the owners |
| Slots.ReturnedOnceIffGuarded | selenwright.go:620-660 | once all DELETEs have finished, every permit was returned at most once if and only if every DELETE found a WebDriver session no other DELETE had found |
| Slots.SessionsHold | playwright.go:338-339 | sessions in the map belong to distinct requests that still hold a permit, because removal precedes release |
| Slots.NothingLeaks | protect/queue.go:76-89 | when every request is over the session map is empty; the counters are zero if every DELETE was guarded and, once all DELETEs have finished, only then |
| Slots.PlaywrightSessionReturnsTwice | selenwright.go:617-660 | one WebDriver-path DELETE of a Playwright session over-releases the semaphore |
| Slots.OverlappingDeletesReturnTwice | selenwright.go:593-627 | two DELETEs that look up one WebDriver session before either removes it over-release the semaphore |
| Slots.UsedExactly | protect/queue.go:81-89 | after any run the used gauge is the sessions through Create less the releases that decremented it; with every DELETE guarded it is the sessions that stand in it less those whose release overtook their Create, so it is non-negative if and only if no more have been overtaken than stand |
| Slots.UsedStaysUp | protect/queue.go:81-89 | in a guarded run in which every decrement finds its session through Create, the gauge counts the sessions standing in it and never falls below zero |
| Slots.StepOvertakes | playwright.go:359-360 | the only step that overtakes a Create is a decrement that finds its session not yet through it |
| Slots.UsedMayDipBelowZero | playwright.go:359-360 | the condition is needed: a cleanup between Put and Create overtakes one session where none stands, and the gauge is -1 |
| Draining.QuietLowers | protect/queue.go:33-103 | every step that brings in no request, session or DELETE lowers the number of steps that remain |
| Draining.EveryWayDrains | protect/queue.go:33-103 | once every WebDriver session still holding its slot has been found by a DELETE, every way of going on without new ones ends within that number of steps, and only where every request is over and every DELETE has finished |
| Draining.DrainableExactly | selenwright.go:593-627 | from a reachable state some continuation ends with every request over and every DELETE finished if and only if no WebDriver session is lost: still holding its slot, found by no DELETE and no longer in the session map |
| Draining.StepLoses | session/session.go:129-140 | exactly two kinds of step lose a session: a Put under the id of a WebDriver session no DELETE has found, and the removal of that id for another session |
| Draining.DrainsIffKeepsAll | session/session.go:129-140 | so a run leads to a state that can be emptied if and only if none of its steps was one of these |
| Draining.SessionMayBeLost | session/session.go:129-133 | two sessions put under one id lose the first, and the server cannot be emptied |
| Playwright.RunDeferred | playwright.go:225-231 | the deferred function runs the pushed cleanups in reverse order, each once |
| Playwright.Open | playwright.go:163-291 | which resources the handler gets hold of, by the outcomes of its calls; up to the hand-off, every exit gives back what was acquired, in reverse, and a hand-off gives nothing back |
| Playwright.StepKeeps | playwright.go:313-380 | every step of the handler, the cleanup body and each trigger keeps the account of what was given back |
| Playwright.GivenBackOnce | playwright.go:313-380 | however the triggers interleave, the cleanup gives back in reverse order and never twice, and everything is back once the handler or any caller returns, unless a WebDriver-path DELETE found the session |
| Playwright.ExactGiveBacks | playwright.go:313-339 | after the handler ends everything was given back once, the slot once more for each WebDriver-path DELETE that released it; so exactly once for all if and only if there was none |
| Playwright.ListedBeforeRelease | playwright.go:338-339 | a session still in the map has not been released by its cleanup |
| Playwright.CleanupInOrder | playwright.go:313-349 | in every run the steps of the cleanup come in the order of its body, each once, and all of them if and only if it is through |
| Playwright.HandlerEnds | playwright.go:365-380 | in every run the handler has ended if and only if eighteen steps of its own, of the cleanup body and of the tunnels have been taken; until then one is enabled, a tunnel's end only where the handler waits for one; the second wait comes after the cleanup, which has closed both connections |
| Playwright.CanFinish | playwright.go:365-380 | from any state that keeps the invariant exactly the remaining such steps bring the handler to its end |
| Create.AskForSession | selenwright.go:221-278 | the retry loop makes at most max(1, retryCount) + 1 attempts, and retries only timeouts while attempts are left and one 404 on an empty path; it fails if and only if its last attempt found the client gone, met another error or timed out with the retries used up |
| Create.ChooseExact | selenwright.go:153-200 | the first entry of firstMatch that is rejected or matched decides |
| Create.HandleCreate | selenwright.go:114-420 | starts a service exactly when body and JSON are good, the first entry that decides is a match and the start works; every exit performs exactly one of Drop and Create, registers exactly when it creates, and cancels a started service exactly when it does not register it |
| Watchdog.Watchdog.Start | session/watchdog.go:43-51 | only the first call sets the deadline and spawns the loop; the call is its four steps in the interleaved model |
| Watchdog.Watchdog.Touch | session/watchdog.go:53-59 | moves the deadline exactly when active; the call is its three steps in the interleaved model |
| Watchdog.Watchdog.Stop | session/watchdog.go:61-67 | succeeds exactly from the active state and never runs the callback; the call is its two steps in the interleaved model |
| Watchdog.Watchdog.Expire | session/watchdog.go:69-80 | succeeds exactly from the active state and then runs the callback once; the call is its three steps in the interleaved model |
| Watchdog.LoopAlone | session/watchdog.go:82-100 | the undisturbed run loop sleeps until a deadline that has not come, expires an active watchdog whose deadline has and then runs the callback, and ends on one that is not active |
| Watchdog.StepKeeps | session/watchdog.go:43-100 | every load, store, swap and clock reading of any call keeps the invariant, and a terminal state is final |
| Watchdog.ExpiresAtMostOnce | session/watchdog.go:61-100 | over all interleavings at most one transition succeeds, the callback runs at most once and only after expiry, at most one loop runs, and an expiry that is through has run the callback |
| Watchdog.TerminalIsFinal | session/watchdog.go:61-80 | once a Stop returned true no continuation, Start included, runs the callback; once an Expire returned true none runs it again |
| Watchdog.LateTouchFails | session/watchdog.go:53-59 | once a terminal state is reached and no Touch is past its state check, no continuation lets a Touch return true or leaves that state |
| Watchdog.NoEarlyExpiry | session/watchdog.go:82-100 | the loop expires before the deadline if and only if one was stored since it read it and has not come; otherwise only after the timeout since the last Touch or Start |
| Watchdog.TouchMayBeLost | session/watchdog.go:53-100 | that condition is needed: for every positive timeout a new watchdog has a run in which a Touch returned true and expiry came before the deadline it stored |
| EventPool.StepKeeps | event/event.go:58-117 | every step of publish, the workers and Shutdown keeps each job in exactly one place |
| EventPool.Conservation | event/event.go:58-117 | in every reachable state each published job is in exactly one place, and jobs leave the channel once each, in the order they entered |
| EventPool.DetachedExactly | event/event.go:101-117 | a job runs in a goroutine of its own exactly where there is no pool or the pool has been stopped |
| EventPool.ReachesChannel | event/event.go:101-117 | what is published to a started pool is in the channel or on its way there as long as the pool is not stopped, and can enter whenever there is room |
| EventPool.BufferBounded | event/event.go:58-78 | the channel never holds more than its capacity, which is at least one |
| EventPool.StartedOnce | event/event.go:58-78 | the first start fixes workers and capacity, the numbers asked for or the defaults; a later one changes nothing |
| EventPool.ShutdownCompletes | event/event.go:80-99 | when Shutdown returns nil, with or without a pool, every job that entered the channel has completed exactly once |
| EventPool.ShutdownEnds | event/event.go:80-99 | after the close the workers take a bounded number of steps, and one is enabled until all have exited |
| EventPool.CloseIsSafeIffNoSender | event/event.go:84-87 | closing the work channel can lose a job if and only if a publisher is past its first select and not through the second |
| LogSink.LogSink.WriteLine | session/log_sink.go:21-38 | on an open sink the content grows by the line, ended by one newline, and all readers wake; on a closed one nothing changes |
| LogSink.LogSink.ReadFrom | session/log_sink.go:40-57 | returns the lines from the index on, the next index, whether closed, and a channel that is shut exactly when closed |
| LogSink.LogSink.Close | session/log_sink.go:59-72 | closes once and wakes all readers |
| LogSink.LogSink.Content | session/log_sink.go:74-82 | all lines, in order |
| LogSink.StreamPlaywrightLogs | logs_ws.go:93-112 | one reader's loop, over any growth of the log between its reads: it delivers a prefix, and everything when it ends on closed or because the request is gone |
| LogSink.StepKeeps | logs_ws.go:93-112 | writers, Close and readers keep each reader's account of what it has delivered |
| LogSink.DeliversPrefix | logs_ws.go:93-112 | what a reader has delivered is a prefix of the accepted lines |
| LogSink.NoLostWakeup | session/log_sink.go:21-72 | a reader asleep while a line is undelivered or the sink is closed can wake |
| LogSink.EndsComplete | logs_ws.go:102-105 | a reader that ends on closed has delivered the whole, final content |
| LogSink.ClosedStreamsEnd | logs_ws.go:93-112 | after Close a reader without errors always has a step that brings it nearer to having delivered everything |
| TokenStore.IndicesExact | protect/token.go:360-366 | a bucket holds exactly the positions with its prefix, in ascending order |
| TokenStore.TokenStore.RebuildIndex | protect/token.go:360-366 | the rebuilt index agrees with the slice for every prefix |
| TokenStore.BucketScan | protect/token.go:213-245 | scanning one bucket finds what scanning the whole store finds |
| TokenStore.TokenStore.Lookup | protect/token.go:213-245 | equals a linear scan that stops on the first matching record, expired or not |
| TokenStore.ScanAnswers | protect/token.go:213-245 | the answer is the owner, groups and id of the first token that matches, unless that has expired; a refusal without a match or without the prefix |
| TokenStore.TokenStore.Create | protect/token.go:116-158 | its errors, and the one record added behind the others, field by field, which stays in memory even when the save fails |
| TokenStore.CreatedAnswers | protect/token.go:116-158 | the plaintext Create issues, not known before, is granted to the trimmed owner with the groups and the id at every later time |
| TokenStore.TokenStore.SeedFromPlaintext | protect/token.go:165-209 | its result in every case: a match if and only if the first matching token has not expired, else one record added, field by field |
| TokenStore.SeededAnswers | protect/token.go:165-209 | a seeded plaintext, not known before, is granted to the trimmed owner with the groups and the id at every later time |
| TokenStore.SeedBehindExpired | protect/token.go:181-209 | for any hashing functions and any stored tokens the first match of which has expired: the seed adds a second token, saved or not, and the plaintext stays refused at every later time |
| TokenStore.CloseGap | protect/token.go:288 | moves the later tokens down by one |
| TokenStore.TokenStore.Revoke | protect/token.go:283-294 | removes the first token with the id, or reports it missing and changes nothing |
| TokenStore.Compact | protect/token.go:301-309 | compacting over the slice it reads leaves the stable filter of the old tokens |
| TokenStore.FilterConcat | protect/token.go:301-309 | that filter goes part by part, so it keeps every token that passes, in order, and no other |
| TokenStore.TokenStore.RevokeByOwner | protect/token.go:298-319 | leaves exactly the other owners' tokens in order, returns how many went, and saves only if some did |
| TokenStore.TokenStore.FlushTouches | protect/token.go:423-448 | takes the pending times, stamps exactly the touched tokens, saves only if some were, and keeps the index |
| TokenStore.TokenStore.Load | protect/token.go:336-358 | the four outcomes of reading the file, and that reading back a written file is a restart |
| TokenStore.TokenSurvives | protect/token.go:213-319 | after any operations none of which revokes it, a token answers its plaintext the same at every time, provided that wherever the file is read again its first match is the one in memory |
| TokenStore.SavedAgrees | protect/token.go:336-421 | the file meets that condition if it is never read again, or from the first operation that writes it, whatever saves failed before, as long as no later one does |
| TokenStore.RevokedStaysDead | protect/token.go:283-319 | a revocation silences a plaintext if and only if it removes every token it matches, and then until a matching token is added |
| TokenStore.RestartAfterRevocation | protect/token.go:283-358 | after a revocation and a restart a plaintext is silent if and only if the revocation was saved and removed all it matches, or nothing was saved and nothing in the file matches |
| TokenStore.UnsavedRevocationReturns | protect/token.go:283-358 | so a revocation that could not be saved is undone by a restart |
| TokenStore.AddedTokenAnswers | protect/token.go:181-209 | a token added for a denied plaintext is accepted from then on, through any operations that revoke neither, if and only if no stored token matched the plaintext |
| SemVer.ParseExactly | stack_versions.go:223-236 | a text is read as a version if and only if it is one of its texts: the three numbers with its pre-release, build metadata behind them or not, or fewer numbers where only zeros follow |
| SemVer.ParsePrint | stack_versions.go:223-236 | printing a version and reading it gives it back |
| SemVer.SpellingsAlike | stack_versions.go:213-236 | a tag without "v", with it and with dots behind it, blanks around it or not, is the same version |
| SemVer.CanonicalPrints | stack_versions.go:232-235 | the canonical form obtained by cutting and padding the text is the printed version |
| SemVer.NormalizeIdempotent | stack_versions.go:213-236 | normalizing twice changes nothing and keeps the version |
| SemVer.NormalizeAlike | stack_versions.go:213-236 | two version tags normalize alike if and only if they are the same version |
| SemVer.NormalizeExactly | stack_versions.go:213-236 | the canonical form is "v", the three numbers and the pre-release; nothing for what is not a version |
| SemVer.PrecedenceExactly | stack_versions.go:264-272 | precedence is that of section 11 of Semantic Versioning 2.0.0: major, minor and patch as numbers in that order; a pre-release below its release; the first identifier that differs decides, numbers by value and below text, text by its first character that differs; a start below the whole |
| SemVer.CompareLaws | stack_versions.go:264-272 | precedence is antisymmetric and equal only for equal versions |
| SemVer.CompareTransitive | stack_versions.go:264-272 | precedence is transitive |
| SemVer.CompareNumberIsNumeric | stack_versions.go:264-272 | comparing number fields by length and text is comparing the numbers |
| Candidates.PickCandidateVersions | stack_versions.go:242-280 | the loop with its seen set and the cut to max compute the ranked list; each offered tag is a version above the next; without a cut exactly the first publications of versions above the current one are offered, pre-releases only for a pre-release |
| Candidates.PickedExact | stack_versions.go:249-271 | without a limit, exactly the first publication of each version above the current one, pre-releases only for a pre-release |
| Candidates.PickedDescends | stack_versions.go:264-272 | the offered tags are versions above the current one, each above the next |
| Candidates.ReleasesDescend | stack_versions.go:264-272 | offered releases descend by major, minor and patch as numbers |
| Candidates.SmallerIsPrefix | stack_versions.go:273-275 | a smaller limit gives a prefix of a larger one |
| Candidates.RankingIsUnique | stack_versions.go:270-272 | any sort into descending order gives the same list |
| Candidates.FindCandidateByCanonical | stack_update.go:703-713 | the loop with its two tests finds the first tag that is the form or has it |
| Candidates.AcceptedIsOffered | stack_update.go:703-713 | what is found is listed and names the form; nothing is found if and only if no listed tag does; for a canonical form the second test alone decides |
| Candidates.OfferedIsAccepted | stack_update.go:484-491 | a tag offered in a short window is found in any longer one and returned verbatim |
| ImageRef.ParsedParts | stack_versions.go:47-100 | a parsed namespace has no slash, a parsed tag no slash or colon, and none an at sign |
| ImageRef.RenderedParses | stack_versions.go:47-100 | a reference without registry reads back as its parts on Docker Hub, less blanks at the end of the tag, unless its namespace looks like a host |
| ImageRef.HostedParses | stack_versions.go:47-100 | behind anything that looks like a host it reads back with that registry |
| ImageRef.ReadAgainExact | stack_versions.go:47-100 | a reference read, written out in full and read again is the same if and only if its tag does not end in a blank |
| ImageRef.RoundTripExact | stack_update.go:502-505 | what the plan writes for a version-aware service reads back exactly if and only if the tag does not end in a blank |
| ImageRef.PublishedParts | stack_versions.go:213-236 | a trimmed tag that is a version never does |
| ImageRef.NameAlone | stack_versions.go:47-100 | a name alone is in Docker Hub's library, with the tag "latest" |
| ImageRef.NameAndTag | stack_versions.go:47-100 | so is a name with a tag, which it keeps |
| ImageRef.RegistryExactly | stack_versions.go:47-100 | what stands before the first slash is the registry if and only if it has a dot or a colon or is "localhost", else the namespace |
| ImageRef.DigestDropped | stack_versions.go:47-100 | a digest is cut off |
| ImageRef.VersionAwareExactly | stack_update.go:459-465 | which spellings of the namespace count |
| StackPlan.EntryExactly | stack_update.go:450-509 | a service can be planned if and only if it is known, version-aware and queried, and one of the fifty newest offered tags is the requested version; its image is then that tag as published; and which error stands for which failure |
| StackPlan.BuildPlan | stack_update.go:450-509 | an entry for every requested service in order, or the first service's error |
| StackPlan.ExtendPlanWithCurrentPins | stack_update.go:678-697 | appends one pin for exactly the version-aware services not requested that have a tag |
| StackPlan.MakePlan | stack_update.go:450-519 | succeeds if and only if every requested service can be planned, and the plan is then complete |
| StackPlan.OneEntryEach | stack_update.go:511-519 | a complete plan has exactly one entry per requested or pinned service and none for any other |
| StackPlan.RenderOverrideYAML | stack_update.go:615-629 | writes the entries sorted by service under the header |
| StackPlan.RenderingIsUnique | stack_update.go:615-629 | the override does not depend on the orders the maps were visited in or on the sort |
| StackPlan.OverrideReads | stack_update.go:615-629 | the override read line by line gives back the plan's services and images, ascending by service, if and only if none of them has a line break in it |
| StackPlan.ImagesReadBack | stack_update.go:500-505 | every planned image reads back as its service's namespace and repository with the entry's tag if and only if the tag does not end in a blank, which a requested service's never does; the whole reference survives if and only if moreover its registry is Docker Hub's |
| StackPlan.RegistryIsLost | stack_update.go:678-697 | a service running ghcr.io/selenwright/hub:v1 is pinned to Docker Hub's selenwright/hub:v1 |
| StackPlan.OfferedUpdates | stack_update.go:484-505 | a tag the versions page offered is planned, as published |
| Shell.BuildUpdaterShellSnippet | stack_update.go:639-663 | the script is the prologue, the replaced body, the delimiter line and the command; read as a shell does, in any environment, it writes the override and runs compose on it |
| Shell.BodyHasNoDelimiter | stack_update.go:642-645 | no line of the replaced body is the delimiter |
| Shell.ReplaceLine | stack_update.go:642-645 | the replacement works line by line |
| Shell.ReplaceFirst | stack_update.go:642-645 | the first occurrence is replaced, and then the rest |
| Shell.HereDocEnds | stack_update.go:655-662 | the here-document ends at the delimiter line and not before |
| Shell.ReadArgs | stack_update.go:646-654 | a shell reads the printed arguments back as their values, one word each |
| Shell.SnippetReads | stack_update.go:639-671 | for any names and any override text, the script read line by line writes to the override file the text, its final newlines replaced by one, with the delimiter replaced where it occurs, and runs compose on it with the sorted names as last arguments |
| Updates.PlanIsWritten | stack_update.go:615-671 | for any plan the file holds exactly the rendered override if and only if that ends in one newline and does not contain the delimiter; it does end so when services and images are one line each, and then the file reads back as the plan's images |
| Shell.DelimiterRemainsExactly | stack_update.go:642-645 | the replaced body still contains the delimiter if and only if the body had two that share an underscore or two |
| Shell.DelimiterMayRemain | stack_update.go:642-645 | such a body |
| Catalog.CompareVersions | discovery/catalog.go:115-135 | the loop computes the segment-wise comparison: the first pair of segments that differs decides, and without one the number of segments |
| Catalog.OrderlyCompare | discovery/catalog.go:117-132 | on segments that scan exactly when they start with a digit, numbers compare as numbers, all else as text, and text never falls between numbers |
| Catalog.OrderlyVersionsOrdered | discovery/catalog.go:115-135 | compareVersions is a total preorder on every set of versions of such segments |
| Catalog.SegmentExactly | discovery/catalog.go:117-132 | a segment keeps the orderly ones in order if and only if it is one of them |
| Catalog.OrderedExactly | discovery/catalog.go:115-135 | a version fits in with any two orderly versions if and only if all its segments are orderly |
| Catalog.HighestVersion | discovery/catalog.go:99-111 | returns one of the keys, or nothing for none |
| Catalog.HighestIsMaximal | discovery/catalog.go:99-111 | among orderly versions a maximal one, for every visiting order and sort |
| Catalog.SignsMakeACycle | discovery/catalog.go:117-132 | every number behind a sign or blank makes a cycle with two orderly segments |
| Catalog.OrderlyMeans | discovery/catalog.go:117-132 | a segment is orderly if and only if a number it starts with fits 64 bits, or no number that fits follows its blanks and sign |
| Catalog.SignedButOrderly | discovery/catalog.go:117-132 | a segment behind a sign is orderly if and only if no number that fits follows the sign |
| Catalog.LongNumbersMakeACycle | discovery/catalog.go:117-132 | every leading number that does not fit 64 bits makes a cycle with two orderly segments |
| Discovery.ScanImages | discovery/discovery.go:44-91 | one entry per name and version, the latest created and of several the first listed, in order of first appearance |
| Discovery.KeysDistinct | discovery/discovery.go:44-91 | the entries' keys are the distinct keys of the usable images |
| Discovery.KeysInOrder | discovery/discovery.go:88-91 | entries stand in the order in which their keys first appear |
| Discovery.GroupedUnique | discovery/discovery.go:44-91 | the grouped list is determined by the images |
| Discovery.GroupedKeys | discovery/discovery.go:80-91 | no two entries share a name and version |
| Discovery.GroupedDescribes | discovery/discovery.go:44-91 | every entry describes one of the images, field by field, and every image with a digest and labels has an entry under its name and version that is newer, or as new and not listed later |
| Discovery.BuildBrowsersFromAdopted | discovery/catalog.go:51-83 | a browser for exactly the names of adopted images, with their versions and default |
| Discovery.VersionsExact | discovery/catalog.go:54-67 | a browser's versions are exactly its adopted images |
| Discovery.MarkedExact | discovery/catalog.go:68-71 | the marked default is that of the last adopted image marked so |
| Discovery.DefaultIsListed | discovery/catalog.go:68-81 | the default is one of the versions: the last marked, else a highest |
| Find.AtoiPrint | config/config.go:296-303 | a printed 64-bit number is read back as itself |
| Find.MajorMinorExact | config/config.go:290-306 | two versions have the same printed pair if and only if they have the same two numbers, and the pair stands for itself |
| Find.NumbersExact | config/config.go:290-306 | one field is too few, and what follows the second changes nothing |
| Find.AtoiExact | config/config.go:296-303 | digits that fit 64 bits are their number, with a sign in front or not; and `AtoiOnly`, nothing else is one |
| Find.PlaywrightExactly | config/config.go:267-288 | which spellings of the protocol count |
| Find.FindPlaywrightVersionMatches | config/config.go:267-288 | collects exactly the compatible Playwright keys |
| Find.FindBrowser | config/config.go:209-258 | the lookup with its loops, order of preference and nil handling |
| Find.FindExact | config/config.go:209-258 | an exact key wins, then a prefix match of another protocol, then the only compatible Playwright entry; a Playwright entry is never chosen by its prefix; nil entries included |
| Find.PlaywrightsExact | config/config.go:241-257 | a compatible entry is returned if and only if it is the only one |
| Find.OrderFreeExactly | config/config.go:229-257 | for every catalog, nil entries included: the answer is independent of map order if and only if the key is exact, every other-protocol entry with the prefix is nil, or there is at most one |
| Find.PlaywrightOrderIndependent | config/config.go:229-257 | for browsers with only Playwright entries it always is |
| State.RecordSession | config/config.go:319-356 | the closure's lookups and inserts amount to adding one entry to one bucket |
| State.AddTallies | config/config.go:319-356 | one more session adds to its own bucket's list and count and changes no other bucket |
| State.MakeState | config/config.go:309-357 | every bucket lists the sessions of its key in visiting order with their number, and configured keys stay |
| State.CountsAddUp | config/config.go:319-336 | the counts over all buckets add up to Used and to the number of sessions |
| State.ListedUnderOneKey | config/config.go:336-355 | every session is listed once, under its own browser, version and quota only, with its container and whether it has VNC |
| Groups.SortedList | protect/groups.go:119-126 | a user's groups become the strictly sorted list of exactly those groups |
| Groups.FaultlessExactly | protect/groups.go:78-117 | a group has no fault if and only if its name and members are good names, after trimming, and no member stands in it twice |
| Groups.ParseGroupsFile | protect/groups.go:78-128 | yields the strictly sorted inverse of the trimmed file, or an error exactly when some group is faulty |
| Groups.FileGroupsProvider.Reload | protect/groups.go:48-61 | takes over a good file and changes nothing on a bad one |
| Groups.GroupsIntersect | protect/session_acl.go:28-44 | whether the two lists share a non-empty name |
| Groups.SessionAccess | protect/session_acl.go:18-26 | admin, non-empty owner, or a shared group |
| Groups.AccessExact | protect/session_acl.go:18-44 | with groups from one file, a user has access if and only if they are an admin, own the session, or the file puts them and the owner in one group |

## Left out

- Docker, the browser containers, HTTP, WebSocket and S3 traffic: they appear only as outcomes a handler meets.
- JSON encoding and the atomic file rename: a save succeeds or fails as a whole, a read gives one of its outcomes.
- bcrypt, SHA-256, random ids and clocks: functions and parameters; the clock of `Watchdog` is any non-decreasing one.
- The registry and Docker Hub clients with their cache: the listed tags are a parameter, per service.
- Metrics, login, flags, capability sanitising, screen-resolution handling, and the routes that only copy fields.
- Which id `resolvePlaywrightSessionID` chooses: `Slots` lets every request use any id, also one in use.
- The callback of a WebDriver session's watchdog, which sends the server a DELETE: for `Slots` a DELETE like any other.
- The WebDriver half's shutdown and the parts of a DELETE after the cancel call.
- The nil receivers of `LogSink` and `Watchdog`, which the source answers with constants.
- `SemVer` models golang.org/x/mod/semver from its grammar, which is not part of this model.
- Go strings are bytes: strings here are sequences of Unicode characters, so malformed UTF-8 is not modelled.
- Aliasing of the report's buckets: `State` updates nested maps by value where the source bumps a count in a shared record.
- Queue.Queue.Protect: one request alone; the interleavings, and waiting for a permit, are in `Slots`.
- TokenStore.TokenStore.SeedFromPlaintext: the lookup and the append are not one critical section in the source, so two seeds at the same time may both append; the model runs one operation at a time, and `AddedTokenAnswers`, with the second token among the later operations, says that the first one then answers.
- TokenStore.TokenStore.Lookup: releases its lock before comparing; the comparisons here run on the copied bucket too, but no operation comes between.
- Catalog.HighestIsMaximal: says nothing of versions that are not orderly, where the order has cycles and the result depends on the sort.
- Shell.SnippetReads: the reader knows quotes, backslash, blanks, variables in double quotes, ordinary characters, one assignment and one redirection of a here-document; it refuses everything else a shell can do.
- Logging of state, session screens, capabilities and start times in `State`: copied fields.
