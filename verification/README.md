# Senkani app core: a model and its proofs

Senkani is a macOS workspace for coding agents. This project models the parts of its application layer that hold
state, talk to other processes or destroy things, and proves what they guarantee, over all inputs and all runs.
Where a promise made in a comment turns out not to hold, the model follows the code, and the exact condition under
which the promise is kept is proved instead.

- **Session log ingest** (`SessionLines`, `SessionTail`, `SessionIngest`, `SessionDuplicates`, `SessionCoverage`,
  `SessionBlocks`, `SessionOverlaps`, `SessionCrashes`, `WatcherPlan`, `WatcherSystem`, `WatcherCompleteness`,
  `SessionWatcher`, `WatcherRuns`, `WatcherStops`). Claude Code writes one log file per conversation; a watcher
  follows the newest and drains the others into the database, keeping a cursor per file. Every terminal pane has a
  watcher of its own and all share the cursors, so the ingest is modelled with any number of readers, whose tails come
  between each other's calls: read the cursor, read the file, write token and trace row of each line, store the
  cursor. One watcher is modelled as a step system over it (other programs, kernel events, late cancel handlers,
  reused descriptors, the state queue, the database queue, stop, crash and restart) and as the object whose methods
  run as blocks of it.
- **Removal and creation** (`WorktreeGit`, `Removal`, `RemovalOptIns`, `WorkspaceModel`, `Selection`,
  `WorkstreamCreation`). The tiered destructive removal of projects and workstreams over an abstract repository, with
  its retries, its deferred commit point, and what is selected afterwards.
- **Workspace and storage** (`PaneModel`, `ProjectModel`, `WorkspaceStorage`, `WorkspaceRoundTrip`,
  `WorkspacePersistence`, `SaveThenLoad`, `LoadedFiles`). Ownership, the active-element rules, and the saved file with
  its two formats.
- **File sidebar** (`FileTree`, `FileRows`). A flat list that has to stay the preorder of a partly open tree.
- **Model downloads** (`LineBuffer`, `LineEnds`, `OllamaPullOutput`, `OllamaLines`, `OllamaPull`, `OllamaRequests`,
  `OllamaOutcomes`). Splitting a stream into lines, parsing the output of `ollama pull`, and the per-tag records among
  asynchronous processes, from the request to the outcome.
- **Documentation sidebars** (`BlockRewrite`, `PaneCards`, `PaneSidebars`, `PaneSync`). The script that rewrites the
  sidebar of every pane page.
- **Smaller cores** (`Slugs`, `SlugWords`, `PaneMetrics`, `Pagination`, `Sampling`).

Operations are first computed by functions, and methods are proved against these. What the functions mean is then
stated without them, on characters, fields, maps and positions: the lemmas whose names end in `Exactly` say what is so
if and only if what.

`Options` and `Text` are shared helpers. Integers are unbounded; nothing below comes near the width of Swift's `Int`.

## What differs from the comments

- The planner's comment promises to re-drain always the file being rotated away from; the code skips it when it had
  been drained before (`WatcherPlan.PriorIsDrainedExactly`, `SessionWatcher.RotationReadsPriorExactly`). A session that
  was left, resumed and left again can lose its last lines until a restart: such a run exists from every first launch
  with two session files (`WatcherRuns.ResumedSessionIsLost`).
- The tail's invariant bounds duplication by crashes alone. Panes in one directory read the same cursor before either
  stores one, and record every line twice without any crash (`SessionOverlaps.TwoPanesRecordTwice`). Exactly once
  survives the start of a tail if and only if no other tail of the file is under way
  (`SessionOverlaps.SecondTailIsSafeExactly`); the bound with overlaps counted is
  `SessionDuplicates.DuplicationIsBounded`.
- Restarts are said to re-emit nothing. A crash that finds rows of a file in the table and its cursor not yet stored
  makes the next process record them again (`SessionCrashes.CrashRecordsTwice`), and only such a crash does
  (`SessionCrashes.RestartIsSafeExactly`).
- The guard on stale file events is said to prevent duplicates. In a run of one watcher nothing but such a crash records
  a row twice, with the guard or without it (`WatcherSystem.OneWatcherRecordsOnce`): a read starts at the cursor, not
  at 0.
- The tail stores the end of the file as the next cursor even in the middle of a line; that line is then lost or
  misread (`SessionLines.CutHarmlessExactly`, `SessionOverlaps.HalfLineTailIsSafeExactly`,
  `SessionOverlaps.HalfLineIsLost`).
- `stop()` keeps the watched path, so starting the same watcher again may watch no file
  (`SessionWatcher.StartAfterStopWatchesExactly`).
- `stop()` cancels what the watcher holds when its turn comes. A scan that an event has queued
  behind it attaches a file once more, to a watcher that has been stopped (`WatcherStops.LateScanAttaches`), and a
  second start without a stop in between leaves a live source that no field names
  (`WatcherStops.SecondStartIsSafeExactly`).
- Removal probes a branch from the worktree directory it has just deleted and takes it for gone: the branch stays
  behind, without a failure, and the name cannot be used again (`Removal.SilentBranchExactly`,
  `WorkstreamCreation.RemovalAsWrittenLeavesTheBranch`).
- `git worktree remove` is run without naming a repository, so it works only if the application's own working directory
  lies in that repository (`cwdInRepo`). An application opened from the desktop starts elsewhere: a call that opts in
  to a worktree then always fails, and no sequence of calls drops the project
  (`Removal.OutsideCallFails`, `WorkspaceModel.NeverDroppedFromOutside`, `WorkstreamCreation.RemovalFromOutside`).
- The downloads' comment says a running pull never shows as not pulled again; the first line of output does just that,
  and a second pull can then be started beside the first (`OllamaPullOutput.ShownNotPulledExactly`,
  `OllamaPull.ManifestLineReopensTheButton`). An unterminated last line never reaches the parser
  (`LineBuffer.NothingLostExactly`). After a successful exit whose output carried no digest, what was shown stays until
  the listing is in, a failure included (`OllamaOutcomes.FailedExactly`).
- The sidebar script promises to keep everything else byte for byte; on pages with carriage returns it does not
  (`PaneSync.OutsideKeptExactly`).
- Search pages stop at 200 results because the database does (`Pagination.PagesCoverExactly`).

## Model

| member | source | states |
|---|---|---|
| SessionTail.Tail | Sources/Core/ClaudeSessionTail.swift:39-153 | with nothing in between, one read enqueues the token rows and commits the trace rows of the usage lines from the stored cursor to the end, and enqueues the new cursor last; what the result reports about count, offset and reset |
| SessionTail.EmitLines | Sources/Core/ClaudeSessionTail.swift:84-138 | the loop with its running byte offset writes, in order, exactly the usage lines of the window with their offsets in the file: each token row queued, each trace row at once |
| SessionBlocks.WholeTailRuns | Sources/Core/ClaudeSessionTail.swift:45-148 | the separate calls of a tail, taken one after the other by one reader, do what the whole tail does |
| SessionBlocks.TailRecordsExactly | Sources/Core/ClaudeSessionTail.swift:45-148 | a tail of a file that is there adds, in order, a token row and a trace row for exactly the usage lines from the cursor on, or from the beginning if the file has become shorter than the cursor, and the end as the new cursor; nothing at all if there is nothing new or it does not decode |
| SessionBlocks.TailOfNothing | Sources/Core/ClaudeSessionTail.swift:45-48 | a tail of a file that is not there records nothing |
| SessionLines.UsageLinesExactly | Sources/Core/ClaudeSessionTail.swift:91-97 | the lines found are exactly the newline-delimited pieces that carry usage |
| SessionLines.UsageLinesSplit | Sources/Core/ClaudeSessionTail.swift:29-37 | reading to a line start and then on gives the lines of one read |
| SessionLines.CutHarmlessExactly | Sources/Core/ClaudeSessionTail.swift:140-148 | a stored cursor is harmless for every parser if and only if it does not lie strictly inside a line |
| SessionDuplicates.DuplicationIsBounded | Sources/Core/ClaudeSessionTail.swift:9-14 | over any run of any readers, no row is recorded more often than once, plus once per crash that lost work and left rows of its file ahead of the cursor, plus once per tail of its file begun while another was under way |
| SessionCoverage.IngestGuarantees | Sources/Core/ClaudeSessionTail.swift:9-14 | over any run whose tails find whole lines when they read: every usage line before a cursor is in both tables, nothing else is, and unless tails of the file overlapped or a crash left rows of it ahead of the cursor, each exactly once and in order |
| SessionIngest.WithinStep | Sources/Core/Stores/TokenEventStore.swift:2195-2232 | with synchronous reads and queued writes, no step of any reader lets a cursor - committed, queued or read - overtake its file |
| SessionOverlaps.TwoPanesRecordTwice | SenkaniApp/Services/ProcessLauncher.swift:14-21 | two panes in one directory record every usage line of a session twice, without any crash |
| SessionOverlaps.SecondTailIsSafeExactly | Sources/Core/ClaudeSessionTail.swift:45-148 | exactly once survives the start of a tail through every crash-free run without another overlap, if and only if no other tail of the file is under way |
| SessionCrashes.RestartIsSafeExactly | SenkaniApp/Services/ClaudeSessionWatcher.swift:42-47 | after any run that has recorded nothing twice, a crash keeps exactly once through whatever follows if and only if it finds no row of the file ahead of the stored cursor |
| SessionCrashes.CrashIsSafeExactly | Sources/Core/ClaudeSessionTail.swift:9-14 | the same in every state whose rows are accounted for, reached or not |
| SessionCrashes.CrashRecordsTwice | Sources/Core/ClaudeSessionTail.swift:9-14 | one reader, a crash behind the first line of a session, a restart: that line is recorded twice |
| SessionOverlaps.HalfLineTailIsSafeExactly | Sources/Core/ClaudeSessionTail.swift:140-148 | whatever the parser and the text to come, two tails record the whole file once and in order if and only if the first found it ending with a whole line |
| SessionOverlaps.HalfLineIsLost | Sources/Core/ClaudeSessionTail.swift:74-97 | half a line, a tail, the rest, a tail: a parser that accepts the line and neither half records nothing |
| WatcherPlan.SessionPathsExactly | Sources/Core/ClaudeSessionWatcherPlan.swift:59-62 | the paths considered are exactly those of the session files in the listing |
| WatcherPlan.SessionNamesExactly | Sources/Core/ClaudeSessionWatcherPlan.swift:59-60 | on the characters of a name: it is a session if and only if it ends in `.jsonl` and the letters `index` stand nowhere in it |
| WatcherPlan.SessionPathsInOrder | Sources/Core/ClaudeSessionWatcherPlan.swift:59-61 | the paths come in the order of the listing, one for each session name |
| WatcherPlan.FirstOfTheNewest | Sources/Core/ClaudeSessionWatcherPlan.swift:64-65 | of several files equally new the first listed is chosen |
| WatcherSystem.UnreadTimesComeLast | SenkaniApp/Services/ClaudeSessionWatcher.swift:141-143 | a file whose time cannot be read is chosen only if no time can |
| WatcherPlan.BeforeExactly | Sources/Core/ClaudeSessionWatcherPlan.swift:78 | the drain list is ordered by the first character in which two paths differ, a continuation coming later |
| WatcherPlan.LatestIsNewest | Sources/Core/ClaudeSessionWatcherPlan.swift:64-67 | the file chosen is in the listing and none is newer |
| WatcherPlan.Plan | Sources/Core/ClaudeSessionWatcherPlan.swift:52-82 | the next file to watch and the sorted list of files to drain, as specified by the scan, the watched file and the drained set |
| WatcherPlan.PlanIsDetermined | Sources/Core/ClaudeSessionWatcherPlan.swift:52-82 | the specification admits one plan only |
| WatcherPlan.EveryFileIsAccountedFor | Sources/Core/ClaudeSessionWatcherPlan.swift:8-17 | each session file is watched, about to be, drained by this plan or drained before |
| WatcherPlan.PriorIsDrainedExactly | Sources/Core/ClaudeSessionWatcherPlan.swift:73-77 | the file rotated away from is drained if and only if it was not drained before |
| WatcherSystem.WatcherRefinesIngest | SenkaniApp/Services/ClaudeSessionWatcher.swift:42-47 | whatever the interleaving, files and database evolve as a run of the ingest: appends, the calls of its own and other tails, commits and crashes |
| WatcherSystem.EventsReadTheirOwnFile | SenkaniApp/Services/ClaudeSessionWatcher.swift:191-201 | in every run a file event taken up comes from a source that has fired for one path, and begins a tail of that path, if it is still watched, or nothing |
| WatcherSystem.OneWatcherRecordsOnce | SenkaniApp/Services/ClaudeSessionWatcher.swift:28-36 | in every run of one watcher, with the guard or without it, tails never overlap and a row is recorded once, plus once per crash that lost work and left rows of its file ahead of the cursor |
| WatcherSystem.DescriptorsAreOwned | SenkaniApp/Services/ClaudeSessionWatcher.swift:13-26 | in every run with late cancel handlers and reused descriptors, each source not yet closed owns its descriptor |
| WatcherSystem.OnlyTheOwnerCloses | SenkaniApp/Services/ClaudeSessionWatcher.swift:123-125 | a descriptor is closed by the handler of the source that opened it and by nothing else |
| WatcherSystem.OldHandlerIsSafeExactly | SenkaniApp/Services/ClaudeSessionWatcher.swift:22-26 | the earlier handler, reading the property, is safe if and only if the property holds no other open source's descriptor |
| WatcherSystem.OldHandlerClosesTheNewFile | SenkaniApp/Services/ClaudeSessionWatcher.swift:22-26 | one rotation before the old handler runs makes the earlier design close the new file |
| WatcherRuns.OldHandlerClosesInARun | SenkaniApp/Services/ClaudeSessionWatcher.swift:22-26 | from every first launch, one new session is enough to get there |
| WatcherCompleteness.InvHolds | SenkaniApp/Services/ClaudeSessionWatcher.swift:132-229 | in every reachable state each session file is done with, about to be read, queued for draining, watched with a read due, or a scan is due; done with means read to the end for one reader, every line recorded for any number |
| WatcherCompleteness.SettledMeansRecorded | SenkaniApp/Services/ClaudeSessionWatcher.swift:132-229 | beside any number of other panes that tail the same files whenever they like: for any burst and interleaving in which reads find whole lines, once nothing of this watcher is pending every usage line of every session file is in both tables; exactly once and in order unless tails of the file overlapped or a crash left rows ahead of the cursor |
| WatcherCompleteness.SettledMeansComplete | SenkaniApp/Services/ClaudeSessionWatcher.swift:132-229 | for a watcher that is the only reader, whatever its reads find: once nothing is pending the cursor of every session file stands at its end |
| WatcherCompleteness.SettledMeansIngestedOnce | SenkaniApp/Services/ClaudeSessionWatcher.swift:37-47 | and then, if its reads found whole lines, each usage line of each file is recorded, exactly once and in order unless a crash left rows ahead of the cursor |
| WatcherRuns.SettledRunsExist | SenkaniApp/Services/ClaudeSessionWatcher.swift:91-99 | from every first launch a start reaches such a settled state, with the newest file watched |
| SessionWatcher.ClaudeSessionWatcher.Start | SenkaniApp/Services/ClaudeSessionWatcher.swift:91-99 | a start opens the directory and runs one scan |
| SessionWatcher.ClaudeSessionWatcher.StartDirWatcher | SenkaniApp/Services/ClaudeSessionWatcher.swift:108-130 | the new directory source owns its descriptor; a failing open changes nothing |
| SessionWatcher.ClaudeSessionWatcher.CheckForNewSession | SenkaniApp/Services/ClaudeSessionWatcher.swift:132-162 | plan, drain each file and remember it, then watch the new file, if any |
| SessionWatcher.ClaudeSessionWatcher.StartWatchingFile | SenkaniApp/Services/ClaudeSessionWatcher.swift:167-219 | cancel the old source, remember the path even if the open fails, attach and read once |
| SessionWatcher.ClaudeSessionWatcher.ReadMessages | SenkaniApp/Services/ClaudeSessionWatcher.swift:221-229 | one tail of the watched file, or nothing |
| SessionWatcher.ClaudeSessionWatcher.FileEvent | SenkaniApp/Services/ClaudeSessionWatcher.swift:195-201 | reads only if the captured path is still the watched one |
| SessionWatcher.ClaudeSessionWatcher.StopWatching | SenkaniApp/Services/ClaudeSessionWatcher.swift:231-241 | the new state of watcher and sources is that of the step below, whose effect on them `WatcherStops.StopCancels` states |
| WatcherStops.StopCancels | SenkaniApp/Services/ClaudeSessionWatcher.swift:231-241 | after stop the sources that were held are cancelled, every other source, the watched path, the drained set and all else are as before, and no source or descriptor is held |
| WatcherStops.ReleaseCancels | SenkaniApp/Services/ClaudeSessionWatcher.swift:243-250 | after the watcher is let go of the sources it held are cancelled and every other source and the descriptors are as before |
| WatcherStops.LiveAreHeldAlways | SenkaniApp/Services/ClaudeSessionWatcher.swift:13-26 | in every run with one start between stops, a source that is neither cancelled nor closed is one the fields name, and the ones they name are alive |
| WatcherStops.SecondStartIsSafeExactly | SenkaniApp/Services/ClaudeSessionWatcher.swift:108-130 | a start keeps that rule if and only if no directory source is held |
| WatcherStops.StoppedReleasesAll | SenkaniApp/Services/ClaudeSessionWatcher.swift:231-241 | after a stop or a release that no start or late scan follows, every source still open has a cancel handler to run, and once all have run no descriptor of the process belongs to a source |
| WatcherStops.LateScanAttaches | SenkaniApp/Services/ClaudeSessionWatcher.swift:132-162 | with a scan queued behind the stop, a run goes on to attach a file to the stopped watcher |
| WatcherStops.EventsReachExactly | SenkaniApp/Services/ClaudeSessionWatcher.swift:115-122 | a new file is an event for exactly the open sources on the directory, more text for those on that file; nothing else changes but the time of the file |
| WatcherStops.RestartEndsAll | SenkaniApp/Services/ClaudeSessionWatcher.swift:42-47 | nothing of the old process's descriptors, sources and tasks is left to a new one |
| SessionWatcher.ScanBlockIsARun | SenkaniApp/Services/ClaudeSessionWatcher.swift:132-162 | an uninterrupted scan is a run of the step system |
| SessionWatcher.RotationReadsPriorExactly | Sources/Core/ClaudeSessionWatcherPlan.swift:73-77 | after a rotation the file left is fully read if and only if it had not been drained before or had nothing unread |
| SessionWatcher.ResumedFileStaysDrained | SenkaniApp/Services/ClaudeSessionWatcher.swift:66-70 | a session that becomes the newest again is watched while it is still marked drained |
| WatcherRuns.ResumedSessionIsLost | Sources/Core/ClaudeSessionWatcherPlan.swift:73-77 | from every first launch with two session files there is a run, with every open succeeding and only one session written to late, that settles with that session not read to its end |
| SessionWatcher.StartAfterStopWatchesExactly | SenkaniApp/Services/ClaudeSessionWatcher.swift:231-241 | after stop and start a file is watched if and only if the newest one is not the one watched before |
| ProjectModel.ProjectModel.constructor | SenkaniApp/Models/ProjectModel.swift:159-166 | a project starts with one flagged default workstream and nothing selected |
| ProjectModel.ProjectModel.Restored | SenkaniApp/Models/ProjectModel.swift:179-195 | takes over a list, makes one workstream active and selects the first active one |
| ProjectModel.ProjectModel.AddWorkstream | SenkaniApp/Models/ProjectModel.swift:63-69 | the new workstream comes last and alone is active |
| ProjectModel.ProjectModel.RemoveWorkstream | SenkaniApp/Models/ProjectModel.swift:73-86 | refuses the last, an unknown and a default workstream; activates the default if the active one went |
| ProjectModel.ProjectModel.SwitchWorkstream | SenkaniApp/Models/ProjectModel.swift:89-92 | flags and selects the given identifier, member or not |
| ProjectModel.OneActiveWorkstreamAlways | SenkaniApp/Models/ProjectModel.swift:29-43 | after any allowed sequence there is a workstream, exactly one flag, on the one `activeWorkstream` returns, and every default workstream is still there |
| ProjectModel.FreshProjectInv | SenkaniApp/Models/ProjectModel.swift:157-166 | holds of a new project although nothing is selected |
| ProjectModel.SwitchIsSafeExactly | SenkaniApp/Models/ProjectModel.swift:88-92 | switching keeps the rule if and only if the target is a member |
| ProjectModel.AdoptionIsSafeExactly | SenkaniApp/Models/ProjectModel.swift:178-195 | taking over a list keeps it if and only if at most one workstream in it is flagged |
| Selection.AdoptionExactly | SenkaniApp/Models/ProjectModel.swift:178-195 | taking over a list selects the first flagged workstream, or flags and selects the default one, or makes one |
| Selection.AddSelectsExactly | SenkaniApp/Models/ProjectModel.swift:63-69 | the added workstream comes last, is selected and alone flagged; the others keep everything else |
| Selection.SwitchWorkstreamExactly | SenkaniApp/Models/ProjectModel.swift:89-92 | exactly the workstreams with the identifier are flagged, which is selected, known or not |
| Selection.RefusedRemoval | SenkaniApp/Models/ProjectModel.swift:73-78 | the last workstream, an unknown one and a default one stay, and nothing changes |
| Selection.RemovedSelectsExactly | SenkaniApp/Models/ProjectModel.swift:79-86 | any other leaves; the rest stay in place, and if it was selected the first default one of them, or else their first, is flagged and selected |
| WorktreeGit.ShrunkSteps | SenkaniApp/Services/GitWorktreeManager.swift:83-92 | removing a worktree, a branch or a directory never makes anything appear |
| Removal.ArtifactsGoneOrNamed | SenkaniApp/Models/WorkspaceModel.swift:123-185 | every opted-in worktree and directory is gone or named in a failure, and every branch whose probe root was reachable |
| RemovalOptIns.OnlyTickedGoes | SenkaniApp/Models/WorkspaceModel.swift:137-179 | on the option maps: a directory or worktree goes only if it lies at or in the worktree of a workstream, not the default one, whose identifier the map of worktrees takes to true, or is the app-support directory and that is ticked; a branch only if the map of branches takes a workstream that names it to true |
| RemovalOptIns.TickedGoesOrIsNamed | SenkaniApp/Models/WorkspaceModel.swift:137-179 | and what is ticked there is gone or named in a failure; branches if the root they are probed from can be reached |
| RemovalOptIns.OnlyTickedIsNamed | SenkaniApp/Models/WorkspaceModel.swift:137-179 | and every failure names something ticked |
| RemovalOptIns.WorkstreamOnlyTickedGoes | SenkaniApp/Models/WorkspaceModel.swift:244-264 | the same for the removal of one workstream, on its two flags |
| RemovalOptIns.BranchByItsRoot | SenkaniApp/Models/WorkspaceModel.swift:256-264 | a branch is probed only from a directory in a checkout of the repository; then it is named if a checkout has it and deleted if none has |
| RemovalOptIns.SupportDirectoriesApart | SenkaniApp/Models/RemovalOptions.swift:51-64 | no app-support directory is that of another project or inside it |
| Removal.BranchFateExactly | SenkaniApp/Models/WorkspaceModel.swift:256-264 | from what the call finds, for either probe root: a branch stays without a word, is named or is deleted, each under its exact condition |
| Removal.SilentBranchExactly | SenkaniApp/Models/WorkspaceModel.swift:256-264 | as written, the branch of a worktree stays silently if and only if the worktree cannot be reached or this very call removes it |
| Removal.StepOneExactly | SenkaniApp/Models/WorkspaceModel.swift:137-149 | for worktrees that do not nest, step 1 takes away exactly those it could remove to begin with, with everything inside them |
| Removal.ProjectBranchFateExactly | SenkaniApp/Models/WorkspaceModel.swift:156-164 | for worktrees that do not nest, from what the call finds and for either probe root: each branch of a project stays without a word, is named or is deleted, each under its exact condition |
| Removal.ProjectBranchesExactly | SenkaniApp/Models/WorkspaceModel.swift:156-164 | nested or not, a project removal deletes exactly the branches checked out nowhere after step 1 that some opted-in workstream was probed for from a reachable root |
| Removal.OwnBranchIsNeverDeleted | SenkaniApp/Models/WorkspaceModel.swift:156-164 | as written, the branch checked out in a workstream's own worktree survives every removal |
| Removal.DualToggleForcedCall | SenkaniApp/Models/WorkspaceModel.swift:93-100 | the one call said to heal both: probing at the project root it does exactly if run from inside the repository; as written the branch stays; from outside both stay and a failure is named |
| Removal.RemainingNeverGrows | SenkaniApp/Models/WorkspaceModel.swift:115-121 | over any retries the artifacts that remain never grow |
| Removal.GoneIsNeverReported | SenkaniApp/Models/WorkspaceModel.swift:115-121 | what was gone before a call is not reported by it or later ones |
| Removal.CallSucceedsExactly | SenkaniApp/Models/WorkspaceModel.swift:102-113 | for worktrees that do not nest, a call has no failures if and only if it finds nothing opted in that will be refused |
| Removal.OneCallSufficesExactly | SenkaniApp/Models/WorkspaceModel.swift:102-113 | for worktrees that do not nest, a call has no failures if and only if no opted-in step that finds its target is refused |
| Removal.OneCallSuffices | SenkaniApp/Models/WorkspaceModel.swift:102-113 | nested or not, once no such step is refused one call has no failures |
| Removal.OutsideCallFails | SenkaniApp/Services/GitWorktreeManager.swift:83-92 | from outside the repository a call names every opted-in worktree that is there, and leaves it |
| WorkspaceModel.WorkspaceModel.SwitchToProject | SenkaniApp/Models/WorkspaceModel.swift:57-67 | clears all flags; a known project is flagged and selected with its first pane, an unknown one leaves none flagged |
| WorkspaceModel.WorkspaceModel.RemoveProject | SenkaniApp/Models/WorkspaceModel.swift:123-197 | the new state of the object, the world and the failures are those of the step functions, whose effect `RemovalOptIns.OnlyTickedGoes`, `RemovalOptIns.TickedGoesOrIsNamed` and `Selection.RemovalSelectsExactly` state on the options and the lists |
| WorkspaceModel.WorkspaceModel.RemoveWorkstream | SenkaniApp/Models/WorkspaceModel.swift:231-284 | the same for one workstream, and the pane selected |
| WorkspaceModel.CommitPoint | SenkaniApp/Models/WorkspaceModel.swift:104-110 | a known project is dropped if and only if no failure is returned, and nothing else about the list changes; which artifacts and exactly which branches are gone then |
| WorkspaceModel.WorkstreamCommitPoint | SenkaniApp/Models/WorkspaceModel.swift:213-218 | a known workstream leaves its project if and only if no failure is returned; no other does; an opted-in worktree is gone or named, and an opted-in branch is then gone exactly if the probe for it worked |
| WorkspaceModel.OneCallDropsExactly | SenkaniApp/Models/WorkspaceModel.swift:102-113 | for worktrees that do not nest, one call drops the project if and only if no opted-in step is refused |
| WorkspaceModel.OneCallDrops | SenkaniApp/Models/WorkspaceModel.swift:102-113 | nested or not, once no step is refused one call drops the project |
| WorkspaceModel.NeverDroppedFromOutside | SenkaniApp/Services/GitWorktreeManager.swift:83-92 | from outside the repository no sequence of calls drops a project whose opted-in worktree is there |
| WorkspaceModel.DroppedWithBranchLeft | SenkaniApp/Models/WorkspaceModel.swift:156-164 | as written, the project is then gone with the branch still there, and no later call reaches it |
| WorkspaceModel.RemovalKeepsActive | SenkaniApp/Models/WorkspaceModel.swift:186-196 | removal keeps exactly one active project |
| WorkspaceModel.SwitchKeepsActiveExactly | SenkaniApp/Models/WorkspaceModel.swift:57-67 | switching keeps it if and only if the project is known or there is none |
| Selection.SwitchSelectsExactly | SenkaniApp/Models/WorkspaceModel.swift:57-67 | exactly the project asked for is flagged, it is selected, and so is the first pane of its workstream in effect |
| Selection.SwitchToUnknown | SenkaniApp/Models/WorkspaceModel.swift:57-67 | for an unknown project the selection stays and no project is flagged |
| Selection.RemovalSelectsExactly | SenkaniApp/Models/WorkspaceModel.swift:185-196 | with a failure the workspace stays; without one the other projects keep their places, and if the removed one was selected the first of them is flagged and selected with its first pane, or nothing is |
| Selection.WorkstreamRemovalExactly | SenkaniApp/Models/WorkspaceModel.swift:231-284 | a failed step keeps the workstream; a refusal by the project keeps it too and is the one failure, under its name; otherwise it leaves |
| Selection.UnknownWorkstream | SenkaniApp/Models/WorkspaceModel.swift:231-240 | an unknown workstream is nothing to do and no failure |
| WorkstreamCreation.CreationAdds | SenkaniApp/Services/GitWorktreeManager.swift:40-80 | a successful creation adds the worktree, its directory and a branch that was not there, and nothing else |
| WorkstreamCreation.CreationExactly | SenkaniApp/Services/GitWorktreeManager.swift:40-80 | each outcome of the request under its exact condition, with the place, the branch name, the new world and the error by case |
| WorkstreamCreation.RecordExactly | SenkaniApp/Models/WorkspaceModel.swift:328-354 | what is recorded: name, place, branch and one terminal there, last in the list, selected and alone flagged |
| WorkstreamCreation.RefusalChangesNothing | SenkaniApp/Models/WorkspaceModel.swift:356-358 | a refused one adds no workstream and at most the parent directory |
| WorkstreamCreation.RemovalUndoesCreationExactly | SenkaniApp/Models/WorkspaceModel.swift:318-359 | probing at the project root, forced removal undoes creation if and only if run from inside the repository, the record names the branch that was made, and no empty directory was in the place of the worktree |
| WorkstreamCreation.RemovalFromOutside | SenkaniApp/Services/GitWorktreeManager.swift:83-92 | from outside, with either probe root, it names the worktree, and worktree and branch stay |
| WorkstreamCreation.RemovalAsWrittenLeavesTheBranch | SenkaniApp/Models/WorkspaceModel.swift:256-264 | as written the branch always stays, without a failure exactly if run from inside the repository, and the same creation is then refused |
| PaneModel.PaneRoundTripExactly | SenkaniApp/Models/WorkspaceStorage.swift:218-290 | a pane comes back as it was if and only if its values are in range and nothing unstored is set |
| PaneModel.FieldsRestored | SenkaniApp/Models/WorkspaceStorage.swift:246-290 | field by field, what a record is restored to: what missing fields, unknown types and values out of range become |
| PaneModel.RecordKeptExactly | SenkaniApp/Models/WorkspaceStorage.swift:218-290 | a record is written back as it was read if and only if no field is missing, all are in range, and it has a model exactly if it is a launcher |
| PaneModel.RestoredIsCanonical | SenkaniApp/Models/WorkspaceStorage.swift:246-290 | whatever the record, the restored pane is in range |
| PaneModel.PaneNormalises | SenkaniApp/Models/WorkspaceStorage.swift:218-290 | storing a restored pane is a normal form |
| WorkspaceStorage.Load | SenkaniApp/Models/WorkspaceStorage.swift:140-214 | the loops over projects and workstreams build the workspace the file describes, skip what is not found, and trap on a negative index that is used |
| WorkspaceStorage.LoadProject | SenkaniApp/Models/WorkspaceStorage.swift:148-193 | both formats: stored workstreams with their selection, or the panes of the older format in the default workstream |
| WorkspaceStorage.LoadWorkstreams | SenkaniApp/Models/WorkspaceStorage.swift:163-173 | the workstreams in stored order with their panes, none flagged |
| LoadedFiles.LoadExactly | SenkaniApp/Models/WorkspaceStorage.swift:140-214 | for any file of either format and any machine: it traps exactly if a negative index is used, there is no workspace exactly if no project is found, and else the projects found come in order, each with the workstreams and panes the file holds for it, with the selection the file gives or the first |
| LoadedFiles.SaveExactly | SenkaniApp/Models/WorkspaceStorage.swift:78-110 | the file holds every project, workstream and pane in order and the positions of what is selected |
| WorkspaceRoundTrip.RestoredProjectInv | SenkaniApp/Models/WorkspaceStorage.swift:176-190 | every restored project has exactly one active workstream, the one the file selects or the default |
| WorkspaceRoundTrip.SaveOfLoad | SenkaniApp/Models/WorkspaceStorage.swift:78-214 | saving what was loaded writes a normal form of the file that depends on no identifier |
| WorkspacePersistence.LoadedIsWellFormed | SenkaniApp/Models/WorkspaceStorage.swift:196-213 | a loaded workspace has one active project, and each project one active workstream |
| WorkspacePersistence.NormalisesAtOnceExactly | SenkaniApp/Models/WorkspaceStorage.swift:160-191 | a second round changes nothing if and only if every project found had workstreams |
| WorkspacePersistence.StableAfterTwoRounds | SenkaniApp/Models/WorkspaceStorage.swift:138-214 | two rounds suffice for every file of either format |
| WorkspacePersistence.ActiveProjectKeptExactly | SenkaniApp/Models/WorkspaceStorage.swift:196-211 | with projects skipped, the active one is kept if and only if none before it was skipped, or all before it were and its index falls off the end |
| SaveThenLoad.SelectionOfLoad | SenkaniApp/Models/WorkspaceStorage.swift:79-83 | which project and pane a load of a saved workspace makes active |
| SaveThenLoad.RestartKeepsExactly | SenkaniApp/Models/WorkspaceStorage.swift:78-214 | with every project found, all projects, workstreams and panes come back in order; active project and pane too if and only if the file can tell them |
| FileTree.FileTreeView.OnAppear | SenkaniApp/Views/FileTreeView.swift:34 | appearing replaces the list by the top level; an unreadable root changes nothing |
| FileTree.FileTreeView.ToggleDirectory | SenkaniApp/Views/FileTreeView.swift:74-82 | the new marks and rows after expanding or collapsing |
| FileTree.FileTreeView.LoadDirectory | SenkaniApp/Views/FileTreeView.swift:84-114 | visible entries one level deeper right behind the row, or as the whole list |
| FileTree.FileTreeView.RemoveInside | SenkaniApp/Views/FileTreeView.swift:77 | the rows with the path prefix go, the others stay in order |
| FileRows.ShownExactly | SenkaniApp/Views/FileTreeView.swift:88-90 | the entries shown are, in order, exactly those whose name is neither hidden, but for `.claude`, nor that of a build product |
| FileRows.LoadedExactly | SenkaniApp/Views/FileTreeView.swift:84-114 | the level loaded, one row for each shown entry, stands right behind the first row with the identifier, or is the whole list if there is none |
| FileRows.UnreadableChangesNothing | SenkaniApp/Views/FileTreeView.swift:86 | a directory that cannot be read changes nothing |
| FileRows.AppearExactly | SenkaniApp/Views/FileTreeView.swift:34 | on appearing the marks stay and the list becomes the top level, if the root can be read |
| FileRows.TapExactly | SenkaniApp/Views/FileTreeView.swift:74-82 | a tap takes the mark and exactly the rows strictly inside, or sets the mark and loads |
| FileTree.WithoutIsClosing | SenkaniApp/Views/FileTreeView.swift:75-77 | deleting rows by prefix is closing the directory and everything open inside it |
| FileTree.InsertIsOpening | SenkaniApp/Views/FileTreeView.swift:98-110 | splicing in one level is opening the directory in the tree |
| FileRows.RowsExactly | SenkaniApp/Views/FileTreeView.swift:84-114 | a row is in the tree if and only if a way of shown entries leads to it from the root through open directories; its name, kind and depth are those of the end of the way |
| FileRows.OrderExactly | SenkaniApp/Views/FileTreeView.swift:84-114 | what lies inside a row follows it with nothing else between; right inside the root and each open directory are its shown entries in order, one level deeper |
| FileTree.AlwaysATree | SenkaniApp/Views/FileTreeView.swift:74-114 | after any taps and re-appearances the list is the preorder of the tree for a set of open directories, all marked expanded, without repeated identifiers |
| FileTree.ExpandThenCollapse | SenkaniApp/Views/FileTreeView.swift:74-82 | expanding and collapsing restores list and marks exactly |
| FileTree.StaleMarkAfterReopening | SenkaniApp/Views/FileTreeView.swift:75-77 | a directory inside keeps its mark through a collapse: reopened, it shows as expanded without contents, and the first tap does nothing to the list |
| LineBuffer.LineBuffer.Append | SenkaniApp/Models/OllamaModelDownloadController.swift:259-272 | the loop hands on the lines and keeps the residual of the drain, which `LineEnds.LinesExactly` and `LineEnds.ResidualExactly` state on the characters; it ends |
| LineEnds.LinesExactly | SenkaniApp/Models/OllamaModelDownloadController.swift:264 | on the characters: the spans handed on are exactly the non-empty stretches, ended by an LF or CR that is not half of a CR LF pair, that hold no such character and start the text or follow one; in order |
| LineEnds.LinesWithoutPairs | SenkaniApp/Models/OllamaModelDownloadController.swift:264 | in a text without CR LF pairs: ended by an LF or CR, holding neither, and starting the text or following one |
| LineEnds.PairsStayInside | SenkaniApp/Models/OllamaModelDownloadController.swift:264 | both characters of a CR LF pair stay in one line |
| LineEnds.ResidualExactly | SenkaniApp/Models/OllamaModelDownloadController.swift:264-270 | the residual is what follows the last such end |
| LineEnds.ResidualWithoutPairs | SenkaniApp/Models/OllamaModelDownloadController.swift:264-270 | without pairs, what follows the last LF or CR |
| LineEnds.LastSegment | SenkaniApp/Models/OllamaModelDownloadController.swift:119-130 | the last piece of the trailing bytes is the residual or else the last line |
| LineBuffer.ChunkingIsHarmlessExactly | SenkaniApp/Models/OllamaModelDownloadController.swift:253-273 | over any chunks, lines and residual are those of the whole stream if and only if no cut falls inside a CR LF pair |
| LineBuffer.ResidualIsUnfinished | SenkaniApp/Models/OllamaModelDownloadController.swift:264-270 | the residual holds no line end |
| LineBuffer.DrainKeeps | SenkaniApp/Models/OllamaModelDownloadController.swift:264-270 | nothing but line ends is dropped |
| LineBuffer.NothingLostExactly | SenkaniApp/Models/OllamaModelDownloadController.swift:119-130 | with the trailing bytes split on their own, the parser sees the lines of the whole stream if and only if the buffer was empty at the end |
| OllamaPullOutput.ShownNotPulledExactly | Sources/Core/OllamaModelCatalog.swift:184-191 | a pull shows as not pulled exactly while no line carried an error, a success, a verification or a positive percentage |
| OllamaPullOutput.NeverBackwards | Sources/Core/OllamaModelCatalog.swift:110-123 | more lines never lower the progress or leave a failure |
| OllamaLines.KindOfLine | Sources/Core/OllamaModelCatalog.swift:199-246 | what kind of line it is, by its text without the blanks around it |
| OllamaLines.PercentIs | Sources/Core/OllamaModelCatalog.swift:251-269 | the number right before the first percent sign, as written in decimal, is the percentage |
| OllamaLines.NoPercent | Sources/Core/OllamaModelCatalog.swift:253 | without a percent sign there is none |
| OllamaLines.NoNumber | Sources/Core/OllamaModelCatalog.swift:254-267 | nor if no digit stands before the first sign |
| OllamaLines.DigestIs | Sources/Core/OllamaModelCatalog.swift:273-289 | the digest is the token up to the first blank or dot if it is all hexadecimal digits |
| OllamaLines.ProgressLine | Sources/Core/OllamaModelCatalog.swift:148-153 | a line of the documented form carries its digest and its percentage |
| OllamaLines.ShownExactly | Sources/Core/OllamaModelCatalog.swift:184-197 | over all lines: a failure with the last error if there is one, else pulled with the first digest if there was a success, else the greatest percentage |
| OllamaPull.OllamaModelDownloadController.StartPull | SenkaniApp/Models/OllamaModelDownloadController.swift:59-114 | the guards in order, and the records after a launch that fails or runs |
| OllamaRequests.TagExactly | Sources/Core/OllamaLauncherSupport.swift:35-39 | a tag is valid if and only if it has 1 to 128 of the allowed characters |
| OllamaRequests.StartExactly | SenkaniApp/Models/OllamaModelDownloadController.swift:59-114 | what each start request shows and records for its tag, and nothing for others |
| OllamaPull.OllamaModelDownloadController.IngestLines | SenkaniApp/Models/OllamaModelDownloadController.swift:136-144 | the parser fed line by line and the state it shows; nothing without a record |
| OllamaRequests.DeliveredExactly | SenkaniApp/Models/OllamaModelDownloadController.swift:136-144 | after a delivery the tag shows what all lines delivered to its record amount to; without a record nothing changes |
| OllamaPull.OllamaModelDownloadController.FinalizePull | SenkaniApp/Models/OllamaModelDownloadController.swift:146-188 | the new state and whether a listing is waited for, as the exit step has it, whose effect `OllamaOutcomes.ExitExactly` states |
| OllamaOutcomes.ExitExactly | SenkaniApp/Models/OllamaModelDownloadController.swift:146-188 | for a tag with a record: an exit code other than 0 shows a failure; code 0 shows as pulled with the first digest the delivered and trailing lines carried; without one what was shown stays and a listing is waited for; the record is gone and other tags are as before |
| OllamaOutcomes.FailedExactly | SenkaniApp/Models/OllamaModelDownloadController.swift:161-186 | after the exit the tag shows a failure if and only if the code was not 0, or a failure was shown and no line carried a digest |
| OllamaOutcomes.MessageExactly | SenkaniApp/Models/OllamaModelDownloadController.swift:176-182 | a failure shows the last error line, else the last line of the error output without its blanks, else the exit code, cut to 120 characters |
| OllamaLines.DecimalReads | SenkaniApp/Models/OllamaModelDownloadController.swift:176-182 | the exit code in it is its decimal digits, behind a sign if it is negative |
| OllamaOutcomes.MessageFits | SenkaniApp/Models/OllamaModelDownloadController.swift:176-182 | it is never empty and never longer |
| OllamaOutcomes.OutcomeStays | SenkaniApp/Models/OllamaModelDownloadController.swift:146-188 | without a record and a listing to come, what a tag shows stays through every run until it is started or listed again |
| OllamaOutcomes.NotPulledAtFirst | SenkaniApp/Models/OllamaModelDownloadController.swift:33-35 | in every run a tag shows as not pulled until it is started or listed |
| OllamaOutcomes.PullEndsExactly | SenkaniApp/Models/OllamaModelDownloadController.swift:59-188 | from the start of a pull whose earlier processes are done with, through its exit and every run after it that leaves the tag alone, the outcome is the one its own lines and exit code give |
| OllamaPull.OllamaModelDownloadController.CancelPull | SenkaniApp/Models/OllamaModelDownloadController.swift:190-197 | record and parser go, the tag shows as not pulled |
| OllamaRequests.CancelExactly | SenkaniApp/Models/OllamaModelDownloadController.swift:190-197 | cancelling drops the record and shows the tag as not pulled; without a record it changes nothing; other tags are as before |
| OllamaPull.OllamaModelDownloadController.RefreshInstalled | SenkaniApp/Models/OllamaModelDownloadController.swift:42-55 | curated tags in the listing show as pulled unless a pull is running |
| OllamaRequests.RefreshExactly | SenkaniApp/Models/OllamaModelDownloadController.swift:42-55 | exactly the five offered tags that are installed and not shown as being pulled show as pulled with their digests |
| OllamaPull.OllamaModelDownloadController.FinishListing | SenkaniApp/Models/OllamaModelDownloadController.swift:161-175 | once the listing is in, the tag shows as pulled, whatever has happened to it meanwhile |
| OllamaOutcomes.ListingExactly | SenkaniApp/Models/OllamaModelDownloadController.swift:161-175 | and that stays through every run that leaves the tag alone, if it was the last listing to come |
| OllamaPull.StartHolds | SenkaniApp/Models/OllamaModelDownloadController.swift:20-29 | a new controller without processes meets the rule below |
| OllamaPull.RecordsAlwaysHold | SenkaniApp/Models/OllamaModelDownloadController.swift:59-197 | in every reachable state each active pull is a process not yet ended and has a parser holding exactly what was delivered to its record |
| OllamaPull.CancelSticksExactly | SenkaniApp/Models/OllamaModelDownloadController.swift:150-151 | a cancelled tag stays not pulled through every run until restarted or listed, if and only if no earlier pull of it waits for a listing |
| OllamaPull.RestartIsSafeExactly | SenkaniApp/Models/OllamaModelDownloadController.swift:74-88 | a new pull keeps its record and shows its own output alone in every run, if and only if every earlier process of the tag was done with at its start |
| OllamaPull.SecondStartExactly | SenkaniApp/Models/OllamaModelDownloadController.swift:64 | when a second pull can be started beside a running one |
| OllamaPull.ManifestLineReopensTheButton | SenkaniApp/Models/OllamaModelDownloadController.swift:136-144 | after the opening line of any pull it can |
| BlockRewrite.LaterBlockWins | tools/sync-pane-sidebars.py:108-121 | replacing twice is replacing once with the later block |
| BlockRewrite.IdempotentExactly | tools/sync-pane-sidebars.py:17-20 | replacing is idempotent on all pages if and only if the block starts with the open marker and holds the close marker at its end only |
| BlockRewrite.ReplaceHeld | tools/sync-pane-sidebars.py:114-121 | the first block found is replaced and everything around it kept |
| PaneCards.CardIsFoundExactly | tools/sync-pane-sidebars.py:42-45 | the expression matches at a position in at most one way, and the scan finds it |
| PaneCards.CardsAreMatched | tools/sync-pane-sidebars.py:42-45 | the expression matches wherever a card is spelled, with any address, slug and title |
| PaneCards.MatchesAreCards | tools/sync-pane-sidebars.py:42-45 | and nowhere else |
| PaneCards.PanesAreTheMatches | tools/sync-pane-sidebars.py:48-50 | the panes are, in order, slug and title of successive matches: each the first at or behind the end of the one before, with none behind the last |
| PaneCards.PanesAreProper | tools/sync-pane-sidebars.py:42-50 | every slug and title has the characters the expression allows |
| PaneSidebars.BuildAside | tools/sync-pane-sidebars.py:53-105 | the growing list of lines is the three groups in order between the markers |
| PaneSync.ActiveMarkExactly | tools/sync-pane-sidebars.py:61-64 | line by line, a link to every pane in order and one to the settings page; marked is exactly the link whose target has the name of the page |
| PaneSync.OtherLinesExactly | tools/sync-pane-sidebars.py:66-92 | the links into the reference, and the number of panes in the heading |
| PaneSidebars.AsideIsBlock | tools/sync-pane-sidebars.py:53-105 | the sidebar holds the close marker once, at its end |
| PaneSidebars.MarkersSeparate | tools/sync-pane-sidebars.py:39-40 | no close marker overlaps the open marker, whatever follows |
| PaneSync.SidebarIsBlock | tools/sync-pane-sidebars.py:42-50 | the sidebar built from any index page is such a block |
| PaneSync.Sync | tools/sync-pane-sidebars.py:124-165 | the pages on disk and the counts after a run, and after a run stopped by a page without markers |
| PaneSync.SyncPage | tools/sync-pane-sidebars.py:142-160 | one page rewritten if it changed |
| PaneSync.LineEndsRead | tools/sync-pane-sidebars.py:146-147 | in reading, CR LF, CR and LF all become LF |
| PaneSync.TurnExactly | tools/sync-pane-sidebars.py:146-160 | a page with an old sidebar reads, after its turn, as the same text with the new one in its place; it is written exactly if the two differ |
| PaneSync.SecondRunChangesNothing | tools/sync-pane-sidebars.py:17-20 | a second run changes no page |
| PaneSync.OutsideKeptExactly | tools/sync-pane-sidebars.py:17-20 | a written page keeps every byte outside the sidebar if and only if no carriage return stands there |
| PaneSync.SidebarsDifferInActiveLinks | tools/sync-pane-sidebars.py:7-10 | two sidebars have the same lines but for the links of the two active pages |
| Slugs.Slugify | SenkaniApp/Services/GitWorktreeManager.swift:96-107 | the replacement loop ends and collapses every run of hyphens |
| SlugWords.SlugExactly | SenkaniApp/Services/GitWorktreeManager.swift:96-107 | the slug is the letters and digits of the name, lowered, with a hyphen between two exactly if something else stood between them, cut to 50 characters; `workstream` if there are none |
| Slugs.SlugIsSlug | SenkaniApp/Services/GitWorktreeManager.swift:94-95 | 1 to 50 lower-case letters, digits and single hyphens, none in front |
| Slugs.SlugIsStableExactly | SenkaniApp/Services/GitWorktreeManager.swift:104-106 | a slug is its own slug if and only if the cut left no hyphen at the end; the second time always |
| PaneMetrics.PaneMetrics.Record | SenkaniApp/Models/PaneMetrics.swift:151-203 | every counter, map and series after one command |
| PaneMetrics.PaneMetrics.Reset | SenkaniApp/Models/PaneMetrics.swift:210-227 | back to the state of a new pane |
| PaneMetrics.BytesAreConserved | SenkaniApp/Models/PaneMetrics.swift:151-203 | over any run, totals are the base plus the sum over all command families plus what came unnamed |
| PaneMetrics.FeatureTotals | SenkaniApp/Models/PaneMetrics.swift:163-166 | the counters of a feature are those of its own commands |
| PaneMetrics.BaseTotals | SenkaniApp/Models/PaneMetrics.swift:190-195 | the breakdown of a command family is the sum of its commands |
| PaneMetrics.FeatureCommandTotals | SenkaniApp/Models/PaneMetrics.swift:168-174 | and so per feature and family |
| PaneMetrics.SecretTotals | SenkaniApp/Models/PaneMetrics.swift:155-161 | secrets add up, and each pattern counts as often as it was reported |
| PaneMetrics.FamilyIsFirstWord | SenkaniApp/Models/PaneMetrics.swift:170 | a command family is the first word, whatever spaces stand before it |
| PaneMetrics.FamilyOfSpaces | SenkaniApp/Models/PaneMetrics.swift:170 | a command of spaces only is its own family |
| PaneMetrics.SeriesIsLatest | SenkaniApp/Models/PaneMetrics.swift:176-187 | the capped series is the last 1000 points of the full one |
| PaneMetrics.SeriesEndsAtTotal | SenkaniApp/Models/PaneMetrics.swift:176-187 | it ends at the feature's counter however many points were dropped, and has as many points as commands, up to 1000 |
| PaneMetrics.OverallSeries | SenkaniApp/Models/PaneMetrics.swift:197-202 | the overall series is uncapped and goes on from restored totals |
| Pagination.PagesAreAPrefix | SenkaniApp/Services/SearchSecurity.swift:19-37 | the pages in order are the ranking from the start, without gap or overlap, up to 200 results |
| Pagination.PagesCoverExactly | Sources/Core/Stores/CommandStore.swift:408 | they hold all the results they have room for if and only if 200 are enough |
| Sampling.SamplingIsEven | SenkaniApp/Views/DashboardView.swift:704-710 | at most 399 points, first and last among them, in order, no gap larger than the stride |
| Sampling.KeptExactly | SenkaniApp/Views/DashboardView.swift:704-706 | kept are exactly the multiples of the stride, the number of whole two hundreds but at least one, and the last point |

## Left out

- Process spawning, git and SQLite themselves, JSON, the UTF-8 decoder and the usage parser: represented by the conditions their callers rely on (`Codec`, `World`, `Surroundings`, `Disk`).
- Truncated session files and the pruning of cursors: files only grow in the runs, so that no cursor gets past the end; a single tail that finds one there is `SessionBlocks.TailRecordsExactly`.
- WatcherCompleteness.SettledMeansComplete: a listing and its modification times are read in one step, times are distinct, and the watcher is started once; the exact condition for a second start is `SessionWatcher.StartAfterStopWatchesExactly`. Beside other readers the cursor may be moved back by a slower tail, so `WatcherCompleteness.SettledMeansRecorded` speaks of the lines.
- WatcherSystem.WatcherRefinesIngest: other panes' watchers take part with their tails only, and so does a dropped watcher whose block is still running; their sources and scans are not modelled. Size and contents of a file are read in one step.
- SessionWatcher.ClaudeSessionWatcher.CheckForNewSession: a block runs without interruption; what happens between its calls is in the step system.
- The pane recorded with a row: rows are told apart by file and line only.
- WorkspaceStorage.Load: the objects it creates are values here, as nothing refers to them before it returns; atomic file replacement and fields that are not stored (render mode, model preset, process state) are not modelled.
- `ProjectSecurity` bookmarks and path validation: a bookmark leads to a place or nowhere, and a renewed one to the same place.
- Panes added, moved and removed one by one, `navigateToPane`, and the probe for unpushed commits: easy members.
- `WorkspaceModel` metrics, cost and percentage strings, formatting: display only.
- FileTree.AlwaysATree: the directory tree does not change while it is shown, and a listing comes in display order; the locale-dependent sort is not modelled.
- LineBuffer.ChunkingIsHarmlessExactly: works on decoded text; a chunk cut inside a UTF-8 sequence is dropped as a whole by the caller.
- OllamaPull.RestartIsSafeExactly: resolving the binary does not suspend on the main actor; a listing with the same tag twice, which traps, and tags outside the curated list are not modelled. Letters are lowered in ASCII.
- PaneSync.Sync: names of pages are given in sorted order; paths and messages printed are not modelled.
- Slugs.Slugify: letters, digits and lower case are an abstract alphabet, one character each.
- Pagination.PagesCoverExactly: page and page size are natural numbers; a negative one traps.
- All views, themes, menus, charts and terminal embedding, the web page scripts and configuration.
