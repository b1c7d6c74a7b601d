# Release and performance scripts, verified

A Dafny model of the repository's release, lab and performance scripts, with
proofs of what they are relied on for.

- **Versions and builds** (`Versions`, `Precedence`, `BuildVersions`): the version
  parser and the comparison the updaters use, at string level, against an
  independent statement of section 11 of Semantic Versioning 2.0.0; the versions
  stamped into unreleased builds, and where they sit between releases.
- **Release channels** (`Channels`, `Prune`, `PruneAgain`, `PruneTags`,
  `RemoteUpdate`, `RemoteProgress`): the manifest and its commands, invariants over every sequence of commands, the stability of a
  "Desktop build due" decision, confluence of beta publication, pruning of old
  betas, and the optimistic read-change-write loop as a state machine for any
  number of concurrent writers.
- **Release URL probe** (`UrlProbe`): the worker pool in every interleaving of its
  awaits.
- **Desktop lab cleanup** (`LabAgents`, `LabCleanup`): launchers, agents and cleaners
  that meet through marker files, in every interleaving, including crashes.
- **Timing gate** (`GateStats`, `Gate`, `GateCompare`, `GateOrder`, `GateServer`,
  `GateNoise`, `ConfirmPlan`): medians with lost runs, pooled spreads, pairing, judging
  with and without noise, and the confirmation plan.
- **Click traces** (`Intervals`, `CriticalChain`, `Episodes`): uncovered gaps,
  network cover, the request chain, and loading indicators grouped into episodes.
- **Closures** (`Reachability`, `BundleClosure`, `NativeNotices`): static import
  closures with memoised sizes, and the worklist of native dependencies.
- **Allowlists and fixtures** (`Allowlist`, `PlanDocs`): the ratchet on catalog
  calls and the allocation of planned documents.

`Text` and `Sorting` hold what the others share. Check everything with
`dafny verify dfyconfig.toml`.

## What the proofs found

Where the code falls short of what its comments or names promise, the model keeps
the code, a lemma gives a failing case, and another says exactly when the promise
holds.

- **Creating the branch is not retried.** `updateRemote` is documented to retry
  when another writer got there first, but a writer that loses the race to create
  the channel branch throws (scripts/release-channels.ts:399-402, 374-380).
  `CreationRaceFails`; it can happen exactly when there is no branch and two of
  the commands publish a first stable release (`BranchRaceLostIff`), or, when
  GitHub answers with an error whether there is a branch, which reads as "none",
  with one (`BranchAppearedIff`).
- **A healthy verdict can be overwritten.** When closing a healthy response's body
  throws, the attempt counts as failed and the next one decides
  (scripts/release-url-probe.ts:51-59). `HealthyVerdictIsOverwritten`; the failure
  list is exact in every run exactly with a single attempt or nothing to probe
  (`FailuresExactIff`), and in every run in which no such throw occurs
  (`QuietPoolIsExact`).
- **A reservation can be written into a removed directory.** Writing it makes the
  directories it needs (scripts/lab/desktop-build.ts:203-204), so a cleanup between
  the launcher's path check and its write (scripts/lab/desktop-agent.ts:354-362)
  leaves a verified reservation in a directory without its run, even when cleanup is
  one step. `LateWriteLosesAgent`; it can happen after a removal exactly to a
  launcher that is alive and has not written its reservation (`LateUseIff`), and in
  some run exactly when there is an agent (`OneStepLosesAgentIff`). Every other agent
  keeps its directory (`OneStepCleanupIsSafe`).
- **A split scan can delete a standing directory in use.** Listing and checking the
  marker files are not one step. A file that is gone by the time it is checked ends
  the scan with "not active" (scripts/lab/desktop.ts:455-457); a reservation verified
  after the decision is not seen; nor is a marker written after the listing whose
  launcher then dies. `VanishedFileDeletes`, `LateReservationDeletes`,
  `LauncherDeathDeletes`; a pass deletes it in no fourth way
  (`WrongDeletionIsExplained`), and one agent and one cleaner are enough
  (`SplitScanLosesAgentIff`).
- **An orphaned agent is protected only by its own marker.** A launcher that dies
  between starting its agent and writing the marker leaves the agent without a
  live marker. `OrphanIsProtectedIff`.
- **Dev tags and package versions admit leading zeros** that the version parser
  rejects, so such a build version is unparseable, and such a tag ties with every
  other when sorted and spoils pruning. `DevVersionParses`, `DevTagParsesIff`,
  `ConsistentWhenParsed`; `LeadingZeroDeletesNewest`, and exactly when pruning is
  exact and idempotent, however the engine sorts: `TagsPrunedExactlyIff`,
  `TagsPrunedOnceIff`.
- **Two base medians.** With a lost base run the reported base time and the limit
  come from the runs that showed content, the change from the ranked median, so a
  head slower than the report says can pass: `SlowerHeadIsMissed`. The documented
  rule holds for every head exactly when the two medians agree
  (`DocumentedClickRule`).
- **Entries without a kind escape the ratchet.** `KindlessEntryEscapes`; a commit
  that passes cannot hide a new call, whatever it is compared with, exactly when all
  its entries have a kind (`RatchetsIff`), and then `CallsNeverIncrease`.
- **Fewer than ten planned documents throw.** `CountsFitIff`, `Plan`.

## Model

| member | source | states |
|---|---|---|
| Versions.ParseText | packages/server/src/release-channels.ts:20-44 | the canonical text of every version, with or without `v`, parses back to that version |
| Versions.ParseBodySound | packages/server/src/release-channels.ts:20-44 | whatever the pattern accepts is the canonical text of the version it is read as |
| Versions.ParseSound | packages/server/src/release-channels.ts:46-59 | normalizing only trims and drops one `v`, is idempotent, and the release tag is a version that parses to the same one without build metadata |
| Versions.TextsDetermine | packages/server/src/release-channels.ts:33-42 | two versions have one text exactly when they are equal, and one tag text exactly when they differ at most in build metadata |
| Precedence.CompareMeetsSection11 | packages/server/src/release-channels.ts:61-93 | the comparison is negative exactly when section 11 of Semantic Versioning 2.0.0, stated by the first difference, puts the first version before the second |
| Precedence.CompareAntisymmetric | packages/server/src/release-channels.ts:61-93 | swapping the arguments swaps the sign; a tie means exactly the same tag |
| Precedence.CompareTransitive | packages/server/src/release-channels.ts:61-93 | precedence is transitive, and strict as soon as one step is |
| Precedence.StringsMeetSection11 | packages/server/src/release-channels.ts:61-93 | on strings the sign is that of section 11, and strings of which one is not a version compare as equal |
| Precedence.TieIsSameTagText | packages/server/src/release-channels.ts:56-93 | on strings, two versions tie exactly when they are published under the same release tag |
| BuildVersions.DevVersionParses | scripts/release-version.ts:25-51 | a build's version is one the updaters can parse exactly when its package version is released or has no leading zeros, and then reads as target, commit count and short commit |
| BuildVersions.DevVersionNamesItsCommit | scripts/release-version.ts:12-51 | printing and matching round-trip: every build version is a dev version of its own commit and never a release version |
| BuildVersions.DevPatternOnText | scripts/release-version.ts:13-23 | the dev pattern accepts the text of a version exactly when its parsed form is a dev build of that commit |
| BuildVersions.DevVersionIff | scripts/release-version.ts:32-44 | a build gets a version exactly when its package version is three numbers, its commit forty hex digits and its count positive |
| BuildVersions.ReleaseOnText | scripts/release-version.ts:12-17 | a version is a release exactly when its text matches the release pattern |
| BuildVersions.DevBetweenReleases | scripts/release-version.ts:5-10 | a build is strictly below the release it leads up to, above exactly the releases below that one, and above the release already made |
| BuildVersions.DevOrder | scripts/release-version.ts:25-51 | builds are ordered by target release first, commit count second |
| BuildVersions.LaterBuildIsNewer | scripts/release-version.ts:5-10 | along main, later builds have strictly higher precedence, across releases |
| BuildVersions.RemovedTagGoesBack | scripts/release-version.ts:25-51 | for one package version, a later build is newer exactly when no release tag was removed in between |
| Channels.OffersNewestUnheld | packages/server/src/release-channels.ts:142-165 | a written manifest always resolves; a channel offers a newest version among the records it follows that are not held, and nothing exactly when all are held; whether it reports a hold is its own record's, stable's when there is none |
| Channels.StepKeepsWellFormed | scripts/release-channels.ts:72-188 | every command keeps a well-formed manifest: stable offers releases, records carry their own tag, a Desktop build is a dev build of its commit, never above beta, and the same build as beta when it ties with it |
| Channels.RunKeepsWellFormed | scripts/release-channels.ts:72-254 | so every run of commands does |
| Channels.RunMovesForward | scripts/release-channels.ts:84-188 | along any run beta and its Desktop build never get lower precedence nor swap to another build of the same precedence, and no channel disappears |
| Channels.HoldIsTheLastWord | scripts/release-channels.ts:117-127 | over any run a channel's hold is what the last hold, release or stable publication asked for; new betas and Desktop builds never change it |
| Channels.StableIsTheLastPublished | scripts/release-channels.ts:84-135 | over any run stable names the version, tag, commit and date of the last stable publication that was accepted, without a Desktop build, or what it named before when there was none |
| Channels.OtherChannelStays | scripts/release-channels.ts:84-254 | no command touches the record of the other channel; one that reports no change changes nothing, and one that reports a change makes one, unless it publishes the stable build there already is |
| Channels.DueIff | scripts/release-channels.ts:199-237 | a Desktop build is due exactly when beta names a build, is not held, has no Desktop build as new, and no attempt was made within the interval or it is forced; it is then beta's own build |
| Channels.DueStays | scripts/release-channels.ts:199-237 | what is due stays due at any later time and after any commands, as long as beta is not held and no Desktop build is published |
| Channels.DueSurvives | scripts/release-channels.ts:141-237 | after a "due" decision and any commands in between, publishing the decided Desktop build is accepted exactly when beta was a dev build of its commit, and then beta names a Desktop build at least as new |
| Channels.DueIsSettled | scripts/release-channels.ts:141-237 | without interference it changes the manifest, records exactly the decided build, and nothing more is due, forced or not |
| Channels.PublishAllReachesNewest | scripts/release-channels.ts:109-135 | publishing builds in any order leaves beta at one of them or the one it had, none of them newer; hold, Desktop build and stable stay |
| Channels.PublishAllPicksNewest | scripts/release-channels.ts:109-135 | beta ends at a build that is newest among those published and the one it had |
| Channels.PublicationIsConfluent | scripts/release-channels.ts:109-135 | any two orders, with any repetitions, end under the same tag, and in the same manifest when builds that tie are the same |
| Channels.NewestCommitWins | scripts/release-channels.ts:84-135 | from any manifest without a beta, whatever commands run, holds, releases and Desktop builds included: if only builds of main are published to beta, beta ends at the newest commit among them |
| Channels.RunTakesNewest | scripts/release-channels.ts:84-254 | the same from a beta that already names a build of main: it ends at the newest of that and the published ones |
| Prune.PruneIsBounded | scripts/release-channels.ts:264-290 | at most keep + keepDesktop + kept dev tags survive, whatever the tags are |
| Prune.PruneIsExactIff | scripts/release-channels.ts:267-290 | for distinct tags and however the engine sorts what does not compare consistently, exactly the obsolete releases are deleted, whatever is kept, if and only if every dev tag parses or there is at most one; obsolete, without sorting: at least `keep` newer ones, not named by the manifest, not among the newest `keepDesktop` with a Desktop build |
| Prune.SortsConsistent | scripts/release-channels.ts:279-281 | tags that all parse, or all tie, are sorted newest first whatever the engine |
| PruneAgain.PruneIsIdempotentIff | scripts/release-channels.ts:267-290 | a second pass deletes nothing, whatever is kept and in whatever order the releases are listed, if and only if every dev tag parses or at most one does; for every sort an engine may have |
| PruneAgain.TwoPasses | scripts/release-channels.ts:279-289 | whatever a sort makes of an older release, a tag that does not parse and a newer release, listed so, some second pass deletes more |
| PruneTags.TagsPrunedExactlyIff | scripts/release-channels.ts:256-290 | the same on the tag texts: exact if and only if no dev tag has a leading zero or there is at most one |
| PruneTags.TagsPrunedOnceIff | scripts/release-channels.ts:256-290 | and idempotent if and only if no dev tag has a leading zero or at most one has none |
| PruneTags.LeadingZeroDeletesNewest | scripts/release-channels.ts:256-290 | a failing case for every release and any two counts, on a list of which every two elements are in order: with a leading-zero tag first the newest beta is deleted although one is to be kept, and it is not obsolete |
| Prune.OddTagSpoilsPruning | scripts/release-channels.ts:279-289 | a dev tag that does not parse, beside any others, makes a pass delete a release that is not obsolete |
| Prune.FewNewer | scripts/release-channels.ts:279-289 | with such a tag no release has all others but one above it, so keeping all but one is wrong whichever release a sort puts last |
| PruneAgain.OddTagSpoilsIdempotence | scripts/release-channels.ts:279-289 | and, beside two that parse, makes a second pass delete more for some order of the list, whatever the sort |
| Prune.DevTagsThatParse | scripts/release-channels.ts:256 | a dev tag is the tag of its own version exactly when it parses |
| PruneTags.DevTagParsesIff | scripts/release-channels.ts:256 | a dev tag parses exactly when none of its numbers has a leading zero |
| Prune.ConsistentWhenParsed | scripts/release-channels.ts:279-281 | the sort's comparison is a consistent order exactly when all tags parse or all tie |
| Prune.TakeByRank | scripts/release-channels.ts:282-287 | being cut by the slice is having that many newer ones |
| RemoteUpdate.StepKeepsInv | scripts/release-channels.ts:325-423 | every request of any writer keeps the protocol's invariant |
| RemoteUpdate.RunKeepsInv | scripts/release-channels.ts:325-423 | so every interleaving does |
| RemoteUpdate.NoUpdateIsLost | scripts/release-channels.ts:387-423 | for any number of writers and any interleaving, the file is the serial application of the successful writers' commands; each writes at most once, during its call |
| RemoteUpdate.EveryContentIsSafe | scripts/release-channels.ts:72-82 | every content the file ever has is well formed, one updaters accept once anything was written, and ahead of every earlier one |
| RemoteUpdate.ReturnsAreAtomic | scripts/release-channels.ts:387-423 | a call that returns got its command's result on the file at one moment during the call: its own commit, or a moment at which nothing had to change |
| RemoteUpdate.FailuresAreHonest | scripts/release-channels.ts:397-422 | a call that throws for a reason of its own left the file alone and the reason is true: refused, unwritable, five commits of others, or there was no file and the branch exists, created meanwhile unless GitHub failed to say |
| RemoteUpdate.RejectedMeansChanged | scripts/release-channels.ts:403-420 | a rejected write means another writer committed since the read |
| RemoteUpdate.CreationRaceFails | scripts/release-channels.ts:374-402 | a failing case, from the start of the calls: two writers find no branch, one creates it, the other throws |
| RemoteUpdate.BranchRaceLostIff | scripts/release-channels.ts:383-402 | without errors of GitHub, some interleaving makes a writer throw because the branch appeared if and only if there was none and at least two of the commands can write the first manifest |
| RemoteUpdate.BranchAppearedIff | scripts/release-channels.ts:333-402 | with errors, which read as "no branch", a branch without the file and one such command are enough, and nothing less is |
| RemoteUpdate.CreatesIff | scripts/release-channels.ts:72-107 | the commands that can write the first manifest are exactly the accepted publications of a stable release |
| RemoteUpdate.ChannelsFile.Write | scripts/release-channels.ts:403-415 | an accepted write appends the command to the serial history |
| RemoteUpdate.ChannelsFile.Interfere | scripts/release-channels.ts:416-420 | other writers only append to it |
| RemoteUpdate.UpdateRemote | scripts/release-channels.ts:387-423 | the loop itself: its result is the command's effect on the file after some prefix of the writes, written at most once and exactly when it says so; giving up means five writes of others, and it makes at most fifteen requests; it throws because the branch appeared only if there was no file, and no branch unless GitHub failed to answer |
| RemoteProgress.NetworkFailuresAreReal | scripts/release-channels.ts:298-323 | in any interleaving a call fails for the network only if a request or answer of its own was lost, or the answer was an error |
| RemoteProgress.NetworkFailureIff | scripts/release-channels.ts:298-420 | at each request exactly then, an error about the branch excepted |
| RemoteProgress.EveryCallEnds | scripts/release-channels.ts:396-422 | in every interleaving a call ends with its fifteenth request at the latest |
| RemoteProgress.FileChangesIff | scripts/release-channels.ts:343-415 | the file changes exactly when a write reaches GitHub while the file is as it was read, or there is no branch and it creates one; it then holds the command's result on what was read, whether or not the answer arrives |
| RemoteProgress.ReaderAloneUpdates | scripts/release-channels.ts:396-415 | a call that reads while the others rest does its command's update in three requests: the new manifest becomes the file when something changes and it has a stable release |
| RemoteProgress.CallAloneUpdates | scripts/release-channels.ts:387-415 | so does a call that starts after any interleaving of the others, wherever they stopped |
| RemoteProgress.RejectedWriteReadsAgain | scripts/release-channels.ts:416-422 | a write rejected because the file changed is followed by another read that acts on the file as it then is, whatever the others did; after the fifth the call gives up |
| UrlProbe.StepKeepsInv | scripts/release-url-probe.ts:30-64 | every await of any worker keeps the pool's invariant |
| UrlProbe.RunKeepsInv | scripts/release-url-probe.ts:30-68 | so every interleaving does |
| UrlProbe.PoolIsExact | scripts/release-url-probe.ts:28-71 | in every interleaving: at most `concurrency` URLs in flight, each with one worker; at most two requests and one judged response per attempt; at the end the failures are, once each, the URLs whose last judged response was not healthy |
| UrlProbe.QuietPoolIsExact | scripts/release-url-probe.ts:28-71 | when closing a healthy response never throws with attempts left, the failures are exactly the URLs no attempt found healthy |
| UrlProbe.HealthyVerdictIsOverwritten | scripts/release-url-probe.ts:51-60 | a failing case, from the start: with at least two attempts some run of the whole pool ends with a URL among the failures that an attempt found healthy |
| UrlProbe.FailuresExactIff | scripts/release-url-probe.ts:28-71 | in every run the failures are exactly the URLs no attempt found healthy, if and only if there is one attempt or nothing to probe |
| UrlProbe.RefusedHeadAsksRange | scripts/release-url-probe.ts:42-49 | a server that does not allow HEAD is asked for a range, once, and no verdict is made of its refusal, whatever the other workers do |
| UrlProbe.VerdictCounts | scripts/release-url-probe.ts:51-64 | a healthy verdict ends its URL without failure once closed; an unhealthy one leads to a pause when attempts are left, and else to a failure |
| UrlProbe.ThrowEndsAttempt | scripts/release-url-probe.ts:56-62 | an await that throws ends its attempt in the same way, by the last verdict when it was the last |
| UrlProbe.PauseRetries | scripts/release-url-probe.ts:34-59 | after a pause the next attempt asks again with HEAD |
| UrlProbe.EveryStepProgresses | scripts/release-url-probe.ts:30-64 | a measure falls with every await that ends, so every pool finishes |
| UrlProbe.UnfinishedMoves | scripts/release-url-probe.ts:30-64 | a pool that is not finished has an await whose end changes it |
| UrlProbe.FewChanges | scripts/release-url-probe.ts:30-64 | no run changes the pool more often than the measure of its start |
| UrlProbe.RunsToEnd | scripts/release-url-probe.ts:30-67 | from every state of every run the pool can be run to its end |
| LabAgents.StepKeepsInv | scripts/lab/desktop-agent.ts:355-441 | every step of any launcher, agent or cleaner keeps the hand-off's invariant |
| LabAgents.RunKeepsInv | scripts/lab/desktop-agent.ts:355-441 | so every interleaving does |
| LabAgents.InUseIsProtected | scripts/lab/desktop-agent.ts:361-433 | from a verified reservation until the agent exited, and on after the launcher died past its matching marker, a live marker exists in the standing directory, and cleanup in one step leaves it alone |
| LabAgents.OneStepCleanupIsSafe | scripts/lab/desktop.ts:537-561 | with one-step cleanup the directory of an agent in use, its launcher alive or dead, has never been removed, for any number of agents and cleanups, unless its reservation was written after the removal |
| LabAgents.LateWriteLosesAgent | scripts/lab/desktop-agent.ts:354-364 | the exception, from the start: a one-step cleanup before the reservation is written, which makes the directory again and verifies |
| LabAgents.LateUseIff | scripts/lab/desktop-agent.ts:354-364 | when a one-step cleanup removes the directory, an agent gets in use there in some continuation if and only if its launcher is alive and has not written its reservation |
| LabAgents.OneStepLosesAgentIff | scripts/lab/desktop-build.ts:203-213 | so with one-step cleanup some run ends with an agent in use in a removed directory if and only if there is an agent |
| LabAgents.OrphanIsProtectedIff | scripts/lab/desktop-agent.ts:385-419 | an agent whose launcher died is protected exactly when its matching marker had been written |
| LabAgents.SplitScanLosesAgentIff | scripts/lab/desktop.ts:432-561 | with the scan split into its steps, some run removes the directory of an agent in use that had written its reservation there if and only if there are an agent and a cleaner |
| LabAgents.WrongDeletionIsExplained | scripts/lab/desktop.ts:432-459 | a pass about to delete a standing directory in use met a vanished file, or listed before the agent was guarded, or its launcher has died |
| LabAgents.VanishedFileDeletes | scripts/lab/desktop.ts:455-457 | a run, from the start, in which the first happens to an agent guarded all along |
| LabAgents.LateReservationDeletes | scripts/lab/desktop.ts:547-561 | a run in which the second happens and nothing else |
| LabAgents.LauncherDeathDeletes | scripts/lab/desktop.ts:442-454 | a run in which the third happens and nothing else: marker written after the listing, launcher dead at its check |
| LabCleanup.CleanupRule | scripts/lab/desktop.ts:544-561 | a one-step cleanup removes a standing directory if and only if the Desktop is dead, its port closed, and no agent has a matching file of a live process; stale files go with it, and a directory that stays is left as it is |
| LabCleanup.RunningDesktopIsKept | scripts/lab/desktop.ts:544-561 | in every interleaving, one-step or split, the directory is gone only after the Desktop stopped and its port closed |
| LabCleanup.PassListsStopped | scripts/lab/desktop.ts:544-561 | a pass in several steps that checks or is about to remove had listed after both |
| LabCleanup.UndisturbedPassIsOneStep | scripts/lab/desktop.ts:432-561 | a pass in several steps with nothing in between does exactly what one-step cleanup does, in whatever order it checks the files |
| LabCleanup.LauncherGetsOn | scripts/lab/desktop-agent.ts:355-441 | a launcher that lives comes nearer its end with every step, unless it waits for its agent |
| LabCleanup.EndedLauncherLeavesNothing | scripts/lab/desktop-agent.ts:364-433 | in every interleaving an ended launcher left neither reservation nor marker, and no agent running |
| LabCleanup.FailedStartEnds | scripts/lab/desktop-agent.ts:364-433 | a launch whose reservation does not match or whose pairing fails ends without a file or an agent |
| LabCleanup.UnverifiedAgentIsStopped | scripts/lab/desktop-agent.ts:394-419 | an agent that cannot be found, or that its marker does not match, is stopped and has no marker |
| LabCleanup.LaunchHandsOver | scripts/lab/desktop-agent.ts:355-433 | a launch that works ends in an agent with its own live marker and no reservation, and without files once the agent exited |
| GateStats.MedianPermutes | scripts/perf/lib.ts:56-64 | the nearest-rank median depends only on which values there are |
| GateStats.MedianLostIff | scripts/perf/lib.ts:56-64 | the median is a lost run exactly when strictly more than half the runs are lost |
| GateStats.SpreadPermutes | scripts/perf/gate.ts:162-177 | the pooled spread depends neither on the order of the groups nor on that of the runs in a group |
| GateStats.SpreadKnown | scripts/perf/gate.ts:174-176 | it is known exactly from three differences on, and never negative |
| GateStats.PushPairs | scripts/perf/gate.ts:170-173 | the inner loops add the distance of every pair of runs, once |
| GateStats.Differences | scripts/perf/gate.ts:169-173 | the loops collect exactly the distances of every two runs of one group |
| GateStats.PooledSpread | scripts/perf/gate.ts:168-177 | the loops compute that spread |
| Gate.LostIffMajority | scripts/perf/gate.ts:369-373 | a judged journey is lost, and then regressed, exactly when strictly more than half of its head runs never showed content |
| Gate.HigherKIsStricter | scripts/perf/gate.ts:375-393 | raising k never adds a regression |
| Gate.FloorRule | scripts/perf/gate.ts:380-381 | exceeding the floor in log space is exceeding the limit as a factor in times |
| Gate.SlowerWithoutNoise | scripts/perf/gate.ts:374-392 | without noise a change counts exactly when the head median exceeds the ranked base median by the limit's factor |
| Gate.DocumentedClickRule | scripts/perf/gate.ts:138-140 | without noise the verdict is the documented rule, more than 10% and more than 30 ms over the reported base, for every head, if and only if the base's two medians agree: the sorted base runs hold one time at the positions (n - 1)/2 and (n - lost - 1)/2 |
| Gate.SlowerAsDocumentedIff | scripts/perf/gate.ts:371-381 | a change counts as documented, for every head time, if and only if it is measured from the base that the limit is taken of |
| Gate.SortedFinite | scripts/perf/gate.ts:291-298 | the runs that showed content, sorted, are the sorted runs before the lost ones |
| Gate.LostBaseRunShiftsTheBase | scripts/perf/gate.ts:371-374 | with a lost base run the reported base differs from the one the change is measured from |
| Gate.SlowerHeadIsMissed | scripts/perf/gate.ts:371-392 | a wrong verdict: on base times of 1000 ms, 2000 ms and a lost run, a head of 1500 ms is not slower than the reported 1000 ms, whatever the noise |
| Gate.DocumentedServerRule | scripts/perf/gate.ts:142-146 | without noise a route counts exactly beyond 10%, and beyond 1 ms when its base is under 1 ms |
| GateNoise.SpreadIsMiddle | scripts/perf/gate.ts:162-177 | a spread is known from three pairs of runs on; times 0.6745 and the square root of two it is the distance of two runs of one group, with fewer than half of all such distances below it and at least half up to it |
| GateNoise.RouteSpreadIsMiddle | scripts/perf/gate.ts:162-177 | likewise a route's known spread, among all pairs of its runs on one side, those with an infinite time counting as farthest |
| GateNoise.NoisyClickRule | scripts/perf/gate.ts:371-393 | with a known spread and k not negative, a shown journey regresses if and only if the head exceeds the ranked base by the factor of more than 10% and 30 ms over the reported base, the log change is positive, and its square exceeds k² 1.2533² spread² (1/n + 1/n') |
| GateNoise.NoisyRouteRule | scripts/perf/gate.ts:424-444 | likewise a route: more than 10%, more than 1 ms under 1 ms, and beyond its own noise |
| GateCompare.Rounds | scripts/perf/gate.ts:242-254 | a round has exactly the keys with a timed click in it, each with the time of the last one; churn and backup are left aside |
| GateCompare.TimeOfLast | scripts/perf/gate.ts:246-250 | that time is the one of the timed click that no other of its key and round follows |
| GateCompare.ClickRuns | scripts/perf/gate.ts:242-254 | one run for each result file and round with a timed click, and none besides |
| GateCompare.RunsHaveTimedKeys | scripts/perf/gate.ts:242-254 | the runs of a side have exactly the keys with a timed click |
| GateCompare.Coverage | scripts/perf/gate.ts:268-274 | counts exactly the runs that have each key |
| GateCompare.PairingIff | scripts/perf/gate.ts:275-284 | a key is noted as new exactly when no base run and every head run has it, and else paired exactly when as many runs of both have it |
| GateCompare.LogsAt | scripts/perf/gate.ts:288-297 | a key's values are those of the runs that have it, in order: logs of positive times, a lost run for every other |
| GateCompare.PairKeys | scripts/perf/gate.ts:265-287 | every key of either side lands in exactly one list, once, the one its two counts call for |
| GateCompare.JudgedIff | scripts/perf/gate.ts:309-365 | a journey is judged exactly when both sides ran it equally often and at most half of its base runs are lost |
| GateCompare.SelectLoop | scripts/perf/gate.ts:307-319 | the loop keeps, notes and reports exactly the keys that its two tests call for, in order |
| GateCompare.SelectMeasured | scripts/perf/gate.ts:307-319 | splits a group's keys, each once, by whether the base ever showed their content |
| GateCompare.JudgeLoop | scripts/perf/gate.ts:358-394 | every key is judged or incomplete, each once, with its own verdict |
| GateCompare.JudgeMeasured | scripts/perf/gate.ts:321-394 | the verdicts use the spread pooled over the group |
| GateCompare.SamplesAt | scripts/perf/gate.ts:321-326 | the spread is pooled over the shown times of every key of the group, on either side apart |
| GateCompare.JudgeGroup | scripts/perf/gate.ts:306-394 | every paired key of a group is judged, noted or incomplete, exactly once |
| GateCompare.CompareClicks | scripts/perf/gate.ts:299-394 | every journey key of either side ends in exactly one list, once, the one its runs call for, and judged ones get their group's verdict |
| GateCompare.JudgementIgnoresOrder | scripts/perf/gate.ts:321-393 | a verdict does not depend on the order in which runs are read or keys turn up |
| GateCompare.OutcomeIgnoresOrder | scripts/perf/gate.ts:265-319 | nor does the list a key ends in |
| GateOrder.CompareResults | scripts/perf/gate.ts:194-394 | from the clicks of the result files: every key with a timed click on either side ends in exactly one list, once |
| GateOrder.ComparisonIgnoresOrder | scripts/perf/gate.ts:265-394 | the whole comparison gives the same verdicts and the same lists in whatever order the runs are read |
| GateServer.CompareServer | scripts/perf/gate.ts:417-445 | every route of either side ends in exactly one list, once, and no paired route is skipped |
| GateNoise.UnknownRouteRule | scripts/perf/gate.ts:424-444 | with fewer than three differences the rule without noise decides |
| GateNoise.LostHeadRegresses | scripts/perf/gate.ts:424-444 | a route whose head took no positive time in most runs regresses, unless its spread is infinite or left to the sort |
| GateServer.RouteIgnoresOrder | scripts/perf/gate.ts:421-445 | a route's verdict does not depend on the order in which runs are read |
| GateServer.HigherKIsStricterForRoutes | scripts/perf/gate.ts:433-444 | raising k never adds a regressed route |
| GateServer.VerdictIff | scripts/perf/gate.ts:421-444 | a route's verdict does not depend on how the engine sorts NaN if most base times are not positive, or there are fewer than three differences, or no side has two such times, or there is one base time and all the head's are such; the model gives it one exactly then |
| GateServer.UnsettledIff | scripts/perf/gate.ts:168-177 | a route's spread is left to the order of sorting NaN exactly when there are three differences, two infinite times on a side, and some difference that is not of two such |
| GateServer.UnboundedIff | scripts/perf/gate.ts:168-177 | with at most one infinite time a side, the spread is infinite exactly when there are three differences and most are with such a time |
| GateServer.UnboundedRule | scripts/perf/gate.ts:424-444 | then the route does not regress for k not negative, and by the rule without noise for a negative one |
| GateServer.FindNoise | scripts/perf/gate.ts:168-177 | the loops compute a route's spread, infinite times included |
| GateServer.PositiveNoise | scripts/perf/gate.ts:168-177 | on positive times it is the spread that journeys have |
| GateServer.SingleRunRule | scripts/perf/gate.ts:421-445 | from the two times alone, on one run a side: regressed exactly beyond 10%, and beyond 1 ms under 1 ms; and when the head took no positive time |
| GateServer.LostBaseNeverRegresses | scripts/perf/gate.ts:421-444 | a route whose base took no positive time in most of its runs never regresses, however slow the head |
| ConfirmPlan.Collect | scripts/perf/gate.ts:465-474 | every suspect's network and pass is collected, with `first` wherever it is needed, and no pass that no suspect asks for |
| ConfirmPlan.Entries | scripts/perf/gate.ts:483-486 | one entry per network |
| ConfirmPlan.IdReadsBack | scripts/perf/gate.ts:384-467 | a printed id reads back as its kind, network and pass, whatever the journey's name |
| ConfirmPlan.Plan | scripts/perf/gate.ts:462-487 | every suspect is re-timed; every click entry comes from a suspect, lists exactly the passes its network's suspects ask for, and satisfies click-trace's rule |
| ConfirmPlan.PlanForIds | scripts/perf/gate.ts:462-487 | the plan on the ids themselves |
| ConfirmPlan.PassListAccepted | scripts/perf/click-trace.ts:2847-2865 | a collected pass list, printed and split again, names only known passes and has `first` where warm, revisit or idle need it |
| Intervals.Gaps | scripts/perf/click-trace.ts:960-978 | for any intervals the gaps are not empty, in order, apart and in range, and a point is in one exactly when no interval covers it |
| Intervals.SweepFindsUncovered | scripts/perf/click-trace.ts:970-977 | the sweep finds exactly the uncovered points beyond its cursor |
| Intervals.GapsAreUncovered | scripts/perf/click-trace.ts:960-978 | the sweep of the clipped, sorted intervals finds exactly what the given ones leave uncovered |
| Intervals.ClippingKeepsCover | scripts/perf/click-trace.ts:966-969 | clipping, dropping and sorting change the cover of no point in range |
| Intervals.NetworkMs | scripts/perf/click-trace-report.ts:78-91 | the cover it computes and the length of the gaps up to content add up to the content time |
| Intervals.SweepsAddUp | scripts/perf/click-trace-report.ts:84-89 | two independent sweeps from one cursor add up to the rest of the range |
| Intervals.CoverIsConserved | scripts/perf/click-trace.ts:1153-1158 | for any chain and any content time, network time and gap time make up the time to content |
| Intervals.EarlyStepsDoNotCount | scripts/perf/click-trace-report.ts:102-103 | dropping the steps that ended before the click changes nothing |
| CriticalChain.Latest | scripts/perf/click-trace.ts:928-932 | the fold keeps the first of the latest-ending requests that pass, or none |
| CriticalChain.FindChain | scripts/perf/click-trace.ts:902-947 | terminates with distinct eligible requests, ending in a latest-ending gated one (empty when none); every link is a latest-ending one that may precede, and the chain cannot be extended back |
| CriticalChain.LastIsLatest | scripts/perf/click-trace.ts:908-932 | in terms of the requests: the chain is empty exactly when no request that ended by content, no font or image, not cached or failed, passes the gate; else its last is the latest-ending of those that do |
| CriticalChain.LinkIsLatest | scripts/perf/click-trace.ts:933-947 | every earlier request is the latest-ending such one, not in the chain after it, that ended at most `maxGap` before the next started and at most 1 ms after |
| CriticalChain.ChainIsComplete | scripts/perf/click-trace.ts:933-947 | before the first there is no further one |
| Episodes.MadeMeans | scripts/perf/experience.ts:128-132 | an episode has as many parts as indicators appear with its first, lasts as long as the longest of them, and ended exactly when all did |
| Episodes.Group | scripts/perf/experience.ts:125-133 | the loop's episodes are in order and a millisecond apart, start with an indicator, are made of all that appear with it, and hold every indicator once |
| Episodes.FindEpisodes | scripts/perf/experience.ts:125-133 | so do those of unsorted indicators |
| Episodes.GroupingPermutes | scripts/perf/experience.ts:126 | whether episodes group the indicators does not depend on the order these were recorded in |
| Episodes.EpisodesAreUnique | scripts/perf/experience.ts:125-133 | the indicators determine their episodes: starts, lengths, parts and ends |
| Episodes.FewestEpisodes | scripts/perf/experience.ts:125-133 | no smaller number of one-millisecond moments accounts for all indicators |
| BundleClosure.Visitor.Visit | scripts/perf/bundle.ts:89-96 | visits everything reachable, or finds a reachable chunk that is missing |
| BundleClosure.Visitor.VisitAll | scripts/perf/bundle.ts:94 | so does the loop over a chunk's imports |
| BundleClosure.StaticClosure | scripts/perf/bundle.ts:86-99 | on any import graph, cyclic ones too: exactly the files of the reachable chunks, each once; throws exactly when a reachable chunk is missing |
| BundleClosure.FileSizes.Measure | scripts/perf/bundle.ts:101-123 | for any list of files, raw, gzip and brotli are each the integer sum of the files' as first measured, and of one build's when the cache agrees with it |
| BundleClosure.MeasureClosure | scripts/perf/bundle.ts:141 | one bundle, closed and measured, leaving what every file counts as it was |
| BundleClosure.ResolveAll | scripts/perf/bundle.ts:145-148 | every source of a route is found, or the route is not measured |
| BundleClosure.MeasureRoute | scripts/perf/bundle.ts:145-149 | a route is measured as the closure of the entry and its sources, at least the entry |
| BundleClosure.MeasureRoutes | scripts/perf/bundle.ts:144-150 | so is every route, or the first that is incomplete throws |
| BundleClosure.MeasureAll | scripts/perf/bundle.ts:140-151 | entry, stylesheet and every route are measured through the shared cache, with the sizes it had first |
| BundleClosure.BundleSizes | scripts/perf/bundle.ts:125-152 | succeeds exactly when there are one entry and one root stylesheet, every source is found and nothing reachable is missing; then, through the shared cache, entry and every route measure the number and the three sums of the files of their closure, and a route at least what the entry does |
| BundleClosure.SheetsEndWith | scripts/perf/bundle.ts:134-139 | the root stylesheets are the keys that end in its path |
| BundleClosure.MoreFilesMeasureMore | scripts/perf/bundle.ts:103-123 | more files never measure less |
| BundleClosure.SameFilesMeasureSame | scripts/perf/bundle.ts:103-123 | the sum does not depend on the order of the files |
| BundleClosure.RouteAtLeastEntry | scripts/perf/bundle.ts:140-150 | for one size per file, a route's closure measures at least the entry's, and is complete only if the entry's is |
| NativeNotices.Push | scripts/native-notices.ts:126-129 | pushes exactly the normal dependencies |
| NativeNotices.NormalDepsAre | scripts/native-notices.ts:126-129 | they are the packages with an edge that has no kind among its kinds |
| NativeNotices.KeyNamesVersion | scripts/native-notices.ts:131 | for names without `@`, packages share a key exactly when name and version agree |
| NativeNotices.Collect | scripts/native-notices.ts:115-153 | on any dependency graph, succeeds exactly when all packages reachable over normal dependencies are acceptable and there is one besides the root, and then names exactly those |
| NativeNotices.AllNeededSeen | scripts/native-notices.ts:119-121 | an empty worklist means seen and reachable are the same |
| Allowlist.Tally | scripts/perf/guards.ts:459-473 | counts how often each key occurs |
| Allowlist.CompareAllowlist | scripts/perf/guards.ts:450-501 | reports exactly the true problems: none exactly when found and registered keys agree with repetitions and every entry has a reason |
| Allowlist.AcceptedBySite | scripts/perf/guards.ts:447-501 | a list without kinds is accepted exactly when found and registered sites agree with repetitions, whatever their kinds, and every entry has a reason that is not blank |
| Allowlist.CompareShrinkOnly | scripts/perf/guards.ts:503-530 | reports exactly the kinds that grew, with both counts |
| Allowlist.KeySaysItsKind | scripts/perf/guards.ts:447-448 | a plain kind can be read back off a printed key, and only its own |
| Allowlist.AcceptedCountsCalls | scripts/perf/guards.ts:447-501 | an accepted list has as many entries of a kind as there are calls |
| Allowlist.ShrunkSaying | scripts/perf/guards.ts:513-520 | a list with no more entries of any kind, brackets in kinds or not, has no more keys that say a kind |
| Allowlist.RatchetStep | scripts/perf/guards.ts:503-530 | one step: from any accepted list to an accepted one with kinds that passes shrink-only, the calls of no plain kind increase |
| Allowlist.KindlessBase | scripts/perf/guards.ts:513-520 | for any accepted list with an entry without a kind there is an accepted base that it passes shrink-only against while it has more calls of some kind |
| Allowlist.RatchetsIff | scripts/perf/guards.ts:503-530 | an accepted commit has no more calls of any plain kind than every accepted base it passes shrink-only against, if and only if all its entries have a kind |
| Allowlist.CallsNeverIncrease | scripts/perf/guards.ts:503-530 | the ratchet: along any chain of passing commits whose entries have kinds from the second commit on, the calls of a kind never increase |
| Allowlist.KindlessEntryEscapes | scripts/perf/guards.ts:513-520 | an entry without a kind admits a new call past both checks |
| PlanDocs.Shuffle | scripts/perf/fixtures.ts:382-385 | the in-place loop gives the order its draws determine |
| PlanDocs.ShuffleMoves | scripts/perf/fixtures.ts:382-385 | shuffling only moves kinds, and only up to its index |
| PlanDocs.EveryOrderIsDrawn | scripts/perf/fixtures.ts:382-385 | no order is left out: every arrangement of the kinds comes of some draws |
| PlanDocs.SharesFit | scripts/perf/fixtures.ts:387-391 | rounding down never hands out more than there is |
| PlanDocs.SizesAddUp | scripts/perf/fixtures.ts:387-392 | the sizes of the spaces are not negative and add up exactly |
| PlanDocs.SizesByWeight | scripts/perf/fixtures.ts:387-392 | every space but the first gets its part by weight, rounded down |
| PlanDocs.SumOfParts | scripts/perf/fixtures.ts:388 | the weights' sum is additive |
| PlanDocs.TotalsAreNearest | scripts/perf/fixtures.ts:374-375 | the Markdown and HTML totals are the whole numbers nearest to 70% and 5%, the upper of two |
| PlanDocs.CountsFitIff | scripts/perf/fixtures.ts:374-381 | the three kind counts can all be allocated exactly from ten documents on |
| PlanDocs.Fill | scripts/perf/fixtures.ts:422-442 | uses each planned kind once, in order, with each space as often as its size, and never reads past the end |
| PlanDocs.Arrange | scripts/perf/fixtures.ts:377-442 | the shuffled kinds follow the four probes, and each kind comes out at its count |
| PlanDocs.Plan | scripts/perf/fixtures.ts:372-444 | exactly `total` documents, round(0.7 total) Markdown and round(0.05 total) HTML, from ten on, each space with as many as its size and the first with the probes too; throws below |

## Left out

- Versions.ParseText: numbers are unbounded integers; what JavaScript does to numbers beyond 2^53 is not modelled.
- Prune.PruneIsExactIff: the sort is any that rearranges and, on a consistent comparison, gives the stable order, as the language promises; on others its order is the engine's. `PruneTags.LeadingZeroDeletesNewest` also takes it that a list of which every two elements are in order is left alone.
- Channels.StepKeepsWellFormed: commands carry versions as parsed; an unparseable version argument is an error case of its own. The JSON text of the manifest is kept as a value.
- RemoteUpdate.RejectedMeansChanged: GitHub rejects a write exactly when the file differs from the one read. Spurious 409 or 422 answers are not modelled, and a blob's hash stands for its content, so a file that changed and changed back counts as unchanged.
- RemoteUpdate.UpdateRemote: of GitHub's errors only the one on the branch query, which the loop goes on from, is modelled in the method; the others end the call and are in the state machine.
- UrlProbe.PoolIsExact: time, headers and redirects are part of whether a response is judged healthy.
- LabAgents.OneStepCleanupIsSafe: removing the directory is one step, and so is writing a file with the directories it needs; whether pairing and starting the agent work in a directory made again is left open. Process ids are not reused; the `keep` flag and the watchdog are not part of this model.
- Gate.DocumentedClickRule: arithmetic is over reals, and logarithm, exponential and square root are any functions with their laws; rounding of the reported numbers is left out. The rule is about runs whose spread is not known; for a known one `GateNoise.NoisyClickRule` gives the rule, for `k` not negative.
- GateServer.CompareServer: a route with two infinite times on a side among three or more differences, not all of two such, and a finite base median is listed as judged without saying how: the script's spread then depends on how the engine sorts NaN (`VerdictIff` says exactly which routes).
- GateServer.RouteIgnoresOrder, GateServer.HigherKIsStricterForRoutes: say nothing of the routes without a verdict.
- GateCompare.CompareClicks: the pass-level "typical journey" comparison, labels and the selection of the two commits' results are left out; grouping is by any function of the key.
- ConfirmPlan.Plan: a click network that is literally named "server" is not covered; click-trace has none.
- CriticalChain.FindChain: a gate is any test of a label; one that remembers where it matched is not modelled.
- BundleClosure.BundleSizes: `resolveKey` is any function of the source that may fail, compression any function of the file. The cache is keyed by the file alone, so across two builds it holds the first one's sizes; the contracts say exactly that.
- Allowlist.RatchetsIff: for builders' names that are not empty and contain no bracket.
- PlanDocs.Plan: titles, paths and block counts are left out, and weights are any positive numbers, with exact real arithmetic. With doubles `45 * 0.7` is 31.499999999999996, so of 45 documents the script plans 31 as Markdown where the model plans 32.
- The iteration order of sets and maps, and so the order in which problems and keys are listed, is arbitrary in the model.
- `confirm`, budgets and reports: filters and text over what is modelled.
- Episodes.FindEpisodes: the kind and path an episode shows, which are its first recorded part's, and the rounding of times are left out.
- Step counting and pop-in in scripts/perf/experience.ts: short loops over frames that browser code produces.
- The network time split in `parts`: sums over steps.
- Git calls that find a build's version, notice rendering, symbolic-link and containment checks of the lab's paths.
