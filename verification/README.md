# claude-teleport: a verified model

claude-teleport moves a Claude Code session from one host to another: it
freezes the source process, transfers files and git state, starts Claude on the
destination, and only then lets the source exit. This project models the parts
that carry its guarantees and proves them with Dafny 4.11:

    dafny verify dfyconfig.toml

Each file is one module named after it; `Common` holds what several share.

- **Transfer engine.** `Destination` (a tree, a staging area, two durable
  records; every change one atomic action), `Transfer` (validation, Diff, Need,
  Send, Receive, Install as the actions they take), `Interrupted` (what a crash
  may leave), `StagingArea`, `Placement`, `CrashResume` (the main results),
  `Removal` (uninstall, which reads through links) and `Uninstall`
  (conservation), `Preflight` (which entries belong to the session, block the
  job, or still wait for a copy), `Host` (the same operations as an object with
  the source's loops and early exits, each proved to take exactly those actions).
- **Path resolution.** `Landing`: symbolic links, dangling and looping ones
  included, and where a guarded placement ends up.
- **Step machine.** `StepRunner` (job.Run over a journal), `Orchestrate` (the
  ten steps of one job over its whole life), `JournalSharing` (the CLI and the
  runner on one locked journal).
- **Concurrent protocols.** `Multiplexer` (remote.Client), `Freezer` (the
  helper that guarantees a stopped process is continued), `Tmux` (control-mode
  framing and the pairing of commands with replies).
- **Rewriting.** `PathMap`, `Rewrite` (JSONL rewriting and the record-prefix
  test), `FastForward` (which fast-forwards survive a rewriting), `Prefix` (the
  byte-prefix test), `Merges` (the add-only merges).
- **Git.** `GitTransfer`: plan, pack, attach, over an object store.
- **Text formats.** `SshConfig` (repair of Match exec guards), `SshLookup` (what
  the parser makes of them and a lookup finds), `Quoting` (tmux and POSIX quoting,
  vis decoding).

## How crashes and interleavings are stated

An operation of the transfer engine is a function from a world to the sequence
of atomic actions it takes there. A crash keeps any prefix of that sequence,
and a history is any number of such cut runs (`CrashResume.Interrupt`), each fed
whatever the source happened to send. Protocols are step relations over all
interleavings; a run is a sequence of states linked by them. Outcomes of hosts,
saves and the network are arbitrary. sha256 is taken to be injective, a JSON
codec to read back the values it can write (well-formed numbers, nesting up to
its limit), and a job's manifest to be fixed.

## Where the code and a simple reading of its promises part

Each of these follows the code, with a lemma that gives the input or the exact
condition.

- README:330-333 of the program names the fast-forward as the only overwrite.
  The code also replaces the job's own capture file and, with `--force`, files
  of the same session; `CrashResume.OverwriteDiscipline` lists all three.
- A forced replacement removes the old file before it places the new one. If the
  job dies in between, the resumed run finds the path free and reports the entry
  as newly installed, so a later uninstall removes a path that held a file before
  the job: `Uninstall.ForcedCrashIsForgotten`, for every accepted, installable job
  and each of its entries that force has to replace. Histories of crashed runs are
  conservative for all other paths, present-same and fast-forwarded ones included
  (`Uninstall.HistoryUninstallIsConservative`).
- Uninstall reads what it is about to remove through links
  (internal/transfer/install.go:573-610). If what the job placed was moved aside
  and a link to it put in its place, the link goes, which the job never placed:
  `Uninstall.LinkIsRemoved`. `Removal.OwnExactly` says when the node that goes is
  the job's own, and with no link standing in it always is.
- A run that dies before its last action, the save of installed.json, leaves
  unrecorded what it has placed; the resumed runs find it present-same, so it is
  never reported and no uninstall removes it: `Uninstall.UnsavedCrashIsForgotten`.
- A destination that is itself a live symbolic link is replaced in place, not
  where its target lies: `Landing.PlacementLands` is an if-and-only-if. The guard
  asks where the link leads, so the replaced link may stand outside the boundary:
  `Landing.StaysInsideExactly` says when, `Landing.LinkLeadsOut` gives the tree.
  A forced replacement removes the name before the guard is asked
  (internal/transfer/install.go:383-386).
- A SIGCONT that kill(2) refuses makes the helper exit with the target still
  stopped; Thaw then reports an error and nobody continues the target:
  `Freezer.StoppedIsGuarded`, `Freezer.RefusedIsLeft`.
- A path map whose From holds a byte that ends paths is not token-wise:
  `PathMap.TokenwiseExactly` is an if-and-only-if for a single mapping.
- RewriteJSONL parses a line less trimmed than the record test does, and two keys
  of an object may rewrite to one. Both lose fast-forwards:
  `FastForward.MarginLosesFastForward`, `FastForward.CollisionLosesFastForward`.
  `FastForward.SurvivesExactly` gives the exact condition for each path map and
  pair of files, record by record.
- The parser takes the words after "Match host" for patterns any of which may match
  (internal/sshx/config_test.go:146-149), while a guard is a conjunction
  (internal/sshx/matchexec.go:155-218). A rewritten guard is read in full if and
  only if it names no host pattern or only one, a plain word
  (`SshLookup.RewrittenExactly`); one left as it is, if and only if it is "all" or
  repeats one word (`SshLookup.KeepExactly`). `SshLookup.TwoHostsAreMisread`,
  `SshLookup.KeptHostsAreMisread` and `SshLookup.CompoundIsMisread` give inputs
  that are rewritten, kept and never repaired at all.
- sshx.Quote writes a safe word bare even where the shell would take it for an
  assignment or a reserved word (sections 2.4, 2.9.1 and 2.10.2 of the POSIX.1-2017
  Shell Command Language): `Quoting.RunsExactly` gives the exact condition,
  `Quoting.AssignmentDoesNotRun` an input. tmuxx.ShellQuote, which quotes every word,
  always runs as its argv.
- An attach stopped between moving the branch and moving the checkout leaves the
  checkout behind its own HEAD, and every later attach to it is refused as not
  clean: `GitTransfer.Repo.AttachExisting`.
- A history row is meant to be written once per job and side
  (internal/orchestrate/steps.go:976-980). An invocation that ends after Record
  without a save leaves the next one free to write it again
  (`Orchestrate.DeathForgetsRecord`); `Orchestrate.RecordedAtMostOnce` says that only
  a later invocation can, and only while no plan on disk says it was written.

## Model

| member | source | states |
|---|---|---|
| CrashResume.RunSucceedsExactly | internal/transfer/install.go:281-394 | An uninterrupted run with an intact source succeeds if and only if the validator accepts the manifest and every entry is installable over the original tree |
| CrashResume.SuccessHadTheStream | internal/transfer/stream.go:128-186 | No run succeeds whose Diff refused, whose source stopped sending or whose destination refused what came |
| CrashResume.RunDelivers | internal/transfer/install.go:325-394 | A run that succeeds, from any interrupted world, ends in the one target tree: every entry delivered, the directories above them present, everything else as it was |
| CrashResume.TargetUnique | internal/transfer/install.go:325-394 | The target tree is determined by the original tree and the manifest |
| CrashResume.ResumeConverges | internal/transfer/diff.go:53-95 | Crash-resume: after any number of attempts, each stopped between any two atomic actions, one more run succeeds and ends in the tree of the uninterrupted run |
| CrashResume.RunSucceeds | internal/transfer/install.go:281-394 | From any interrupted world the run of an accepted, installable manifest with an intact source succeeds |
| CrashResume.OverwriteDiscipline | internal/transfer/install.go:325-394 | After any history of interrupted runs a node that stood before the job stands unchanged, or an entry for that very path was the capture, a fast-forward, or a regular session file that the source marks as this session's, the destination's own test gives to this session, and the user forces |
| CrashResume.RefusedIsIdle | internal/transfer/diff.go:153-269 | A manifest with one refused entry never changes the tree, over any history |
| CrashResume.AcceptedExactly | internal/transfer/validate.go:219-360 | The validator accepts a manifest if and only if every entry is confined, spelled out in prefixes of paths: a session entry under the configuration directory and not forbidden, the capture at its own path, a git entry under the longest declared root that holds it, which is a proper directory of the home and was recorded, missing, named by a session entry, or for directories only; links only where the target rule lets them |
| CrashResume.ChangesAreConfined | internal/transfer/validate.go:219-360 | Whatever a job has changed after any history of interrupted runs is the place of one of its entries, or a directory made above one, and then every entry of it is confined |
| CrashResume.EntryRootIs | internal/transfer/roots.go:66-82 | The root of an entry is the longest declared root that holds it, the first of those |
| CrashResume.ClaimsComplete | internal/transfer/validate.go:365-373 | The claims written before the first placement cover every root that was absent, name only absent unrecorded roots of git entries, and writing them changes only the record |
| CrashResume.ValidatorStable | internal/transfer/validate.go:327-360 | Whatever the validator accepted at the start it accepts again in every interrupted world |
| CrashResume.FullRunAllowed | internal/transfer/install.go:281-394 | Whatever the source sends, every single action of a run is one the interruption rule allows |
| CrashResume.InterruptedMidway | internal/transfer/install.go:281-394 | Every world reached by a history of cut runs is between the original tree and the target, path by path |
| Interrupted.StepKeepsMidway | internal/transfer/install.go:141-232 | Every allowed action keeps that invariant |
| Interrupted.StepKeepsDelivered | internal/transfer/install.go:141-232 | No allowed action changes what an entry has delivered |
| Transfer.EntryRoot | internal/transfer/roots.go:66-82 | The root of an entry is a declared root containing it, and a longest one; none only when none contains it |
| Destination.MkdirAll | internal/transfer/install.go:195-232 | MkdirAll makes only directories on the way that did not exist, and none when it fails |
| Destination.MkdirAllSucceeds | internal/transfer/install.go:195-232 | It succeeds exactly when nothing on the way is anything but a directory |
| Destination.MkdirAllExec | internal/transfer/install.go:195-232 | On success exactly the absent ancestors have become directories |
| Destination.AbsentAncestorsAre | internal/transfer/installed.go:135-149 | absentAncestors lists exactly the path and the ancestors that do not exist |
| Destination.LinkNamesRead | internal/transfer/validate.go:381-406 | A link's text is read name by name, ".." among them, whether absolute or not |
| StagingArea.DiffFromMeans | internal/transfer/diff.go:153-269 | Diff touches only staging, drops only copies it would not accept, and when it refuses nothing each status means what it says in the world Diff leaves |
| StagingArea.StagedStateMeans | internal/transfer/diff.go:53-95 | The classification of one entry agrees with the tree, the staging area and the fast-forward test |
| Transfer.StagedStatusIs | internal/transfer/diff.go:53-95 | A staged copy counts when it has the right size, a mark when it is the right one; a copy of another size or a partial one is told apart from none at all |
| Transfer.DeferredIsStaged | internal/transfer/diff.go:153-269 | A deferred capture or git entry is classified by what is staged alone; any other entry that stands at its place is present |
| StagingArea.NeedIs | internal/transfer/diff.go:278-291 | Need lists exactly the entries whose status asks for a copy |
| StagingArea.NeededIs | internal/transfer/diff.go:278-291 | That is: nothing is there, or a staged mismatch, a fast-forward candidate, or a differing entry that may be copied over |
| StagingArea.SendDelivers | internal/transfer/stream.go:19-66 | An intact source sends a packet for every needed entry, and every packet sent is a needed entry's |
| StagingArea.SendSucceeds | internal/transfer/stream.go:19-66 | Send ends well if and only if every file it needs is there and has the manifest's size |
| StagingArea.PacketAllowed | internal/transfer/stream.go:188-217 | Whatever arrives, a staged copy is only ever committed when its hash is the manifest's |
| StagingArea.StagedIsKept | internal/transfer/stream.go:168-174 | A staged copy of the right size is not written again |
| StagingArea.ReceiveStages | internal/transfer/stream.go:128-186 | Receiving the source's packets stages each of them and loses nothing already staged |
| StagingArea.StageSupplies | internal/transfer/stream.go:128-217 | After Diff, Send and Receive every entry is staged, or already delivered, or differs and may not be sent |
| Placement.PlaceAllowed | internal/transfer/install.go:141-159 | A placement takes only allowed actions, wherever it stops |
| Placement.PlaceDelivers | internal/transfer/install.go:141-232 | A placement that succeeds leaves exactly the entry's node, new directories above it, and everything else as it was |
| Placement.InstallEntryDelivers | internal/transfer/install.go:325-394 | The same for one turn of the loop under every status it can act on |
| Placement.InstallLoopDelivers | internal/transfer/install.go:325-394 | A loop that ends well has delivered every entry and changed no other node |
| Placement.ReplacementIsChecked | internal/transfer/install.go:332-389 | Whatever has become of the tree since Diff, a fast-forward has passed its test against what stands there now, and a forced replacement consent, the source's mark, the destination's ownership test and the staged copy's hash; only a staged entry counts as new |
| Removal.OwnExactly | internal/transfer/install.go:573-610 | A node that reads as recorded is the job's own if and only if its path is a name of the real tree and holds no link but a recorded one |
| Removal.LinkIsTaken | internal/transfer/install.go:573-610 | A link put in place of what was placed, leading to the same bytes or to an empty directory, is what goes |
| Removal.UpLinkIsRead | internal/transfer/install.go:573-610 | A link to "../c" is read through to the sibling of its directory |
| Removal.FullDirStays | internal/transfer/install.go:593-610 | A link to a directory with something in it stays |
| Removal.UninstallTakesBack | internal/transfer/install.go:525-644 | Whatever the tree, each removal is of a name whose record's path reads as recorded through links and was free before the job or exempt |
| Uninstall.UninstallIsConservative | internal/transfer/install.go:626-644 | Uninstalling what a run reported, even a run that failed, on whatever tree stands later, removes only what still reads as recorded at paths free before the job, the capture excepted; with no link standing in it removes only the job's own unchanged nodes |
| Uninstall.LinkIsRemoved | internal/transfer/install.go:573-590 | The failing input: a placed file moved to a sibling name and linked to has its link removed, not the file |
| Uninstall.KeptAreSpared | internal/transfer/install.go:655-687 | With no link standing in, an uninstall of some ids removes only the places of their entries and recorded directories above them, and never the place of another entry |
| Uninstall.HistoryUninstallIsConservative | internal/transfer/install.go:525-644 | The same over any history of crashed and resumed runs; excepted besides the capture are only entries that force had to replace, neither present-same nor fast-forward |
| Uninstall.ForcedCrashIsForgotten | internal/transfer/install.go:364-386 | For every accepted, installable job and every entry force has to replace there is a point to die at after which the resumed run reports the entry as newly installed and uninstalling it removes the path |
| Uninstall.RunThenUninstallRestores | internal/transfer/install.go:525-644 | When every entry was missing or already there and every root is the job's own, a run followed by the uninstall of its report gives back the original tree, created directories included |
| Uninstall.RunReport | internal/transfer/install.go:336-340 | The reported ids, and the directories newly recorded, name only paths missing in the tree the run met, or the capture |
| Uninstall.LoopLedger | internal/transfer/installed.go:153-158 | What the loop records is exactly what changed: every new or changed node is recorded as it stands |
| Uninstall.RemoveFilesResult | internal/transfer/install.go:525-592 | With unchanged files the first pass removes exactly the selected files and links |
| Uninstall.RemoveDirsResult | internal/transfer/install.go:665-687 | Removing the created directories deepest first leaves exactly the tree without them |
| Uninstall.RunSavesLast | internal/transfer/installed.go:164-173 | Only the last action of a run can write installed.json, so a crash leaves the old record or the complete one |
| Uninstall.HistoryPassesBy | internal/transfer/install.go:340-343 | What stands delivered and unrecorded is left standing, unreported and unrecorded by any further history of crashed and resumed runs |
| Uninstall.UnsavedCrashIsForgotten | internal/transfer/install.go:281-394 | Whatever a run had placed when it died short of its last action is unrecorded, stays so over any further history, and is removed by no uninstall of any ids on any tree in which no link stands in |
| Uninstall.PlacedBeforeSaved | internal/transfer/install.go:281-394 | For every accepted, installable job there is such a point to die at, with every entry whose place was free already placed |
| Host.Host.Do | internal/transfer/install.go:101-134 | One atomic change to the host's fields is the corresponding action |
| Host.Host.StagedState | internal/transfer/diff.go:53-95 | Removes a partial or wrong-size copy in place and reports what is left |
| Host.Host.Diff | internal/transfer/diff.go:153-269 | The loop classifies every entry, goes on past a refusal, and takes exactly Diff's actions |
| Host.Host.ReceiveItem | internal/transfer/stream.go:188-217 | One stream item: the partial file, then commit on a matching size and hash, else removal |
| Host.Host.Receive | internal/transfer/stream.go:128-186 | The stream loop stops at the first bad item and takes exactly Receive's actions |
| Host.Host.FindAbsent | internal/transfer/installed.go:135-149 | The upward loop finds the absent ancestors |
| Host.Host.MakeDirs | internal/transfer/install.go:195-232 | MkdirAll on the host makes the directories of its specification and reports success the same way |
| Host.Host.Place | internal/transfer/install.go:141-159 | Notes the missing directories, places, and returns what is to be recorded |
| Host.Host.ForceEntry | internal/transfer/install.go:250-261 | The forced replacement changes something only for a regular session file with the user's force, the source's mark, the destination's own ownership test and a staged copy with the manifest's hash, and never counts as new |
| Host.Host.PlaceByStatus | internal/transfer/install.go:332-389 | One turn of the switch over statuses |
| Host.Host.CommitClaims | internal/transfer/validate.go:365-373 | The pending roots are recorded one by one, in order |
| Host.Host.PlaceAll | internal/transfer/install.go:325-390 | The loop stops at the first entry it cannot place and reports what was placed until then |
| Host.Host.Install | internal/transfer/install.go:268-324 | Validates everything first, claims, places, and writes the record on every exit path |
| Host.Host.Run | internal/transfer/install.go:268-394 | Diff, Receive, Diff, Install on an untouched host succeeds exactly when the manifest is accepted and installable, and then leaves the target tree |
| Host.CreatedDirs | internal/transfer/install.go:665-687 | Collects exactly the created directories above a removed entry that no kept entry needs, each once, deepest first |
| Host.Host.RemoveRecorded | internal/transfer/install.go:540-592 | The loop over the entries takes exactly the removals of the first pass |
| Host.Host.RemoveEmptied | internal/transfer/install.go:593-610 | The loop over the directories takes exactly the removals of the second pass |
| Host.Host.UninstallIDs | internal/transfer/install.go:525-644 | Orders the created directories itself, then takes exactly the actions of uninstall, or none when the reduced manifest is refused |
| Preflight.FfAllowed | internal/transfer/manifest.go:148-171 | The marker scan accepts exactly the paths with a component that is the session id, or the id with an extension |
| Preflight.ComponentsNamed | internal/transfer/manifest.go:140-171 | The positions the scan accepts are the path's components of the session, none inside another name |
| Preflight.Pending | internal/transfer/diff.go:310-319 | Lists exactly the entries whose status is absent or a staged mismatch |
| Preflight.PendingIsUnstaged | internal/transfer/diff.go:293-319 | With Diff's statuses those are exactly the entries with nothing at their place and no acceptable staged copy |
| Preflight.Blocking | internal/transfer/diff.go:333-342 | Lists exactly the differing entries that force may not replace |
| Preflight.BlockedNeverSucceeds | internal/transfer/diff.go:321-342 | An entry that blocks at preflight is one with which no run on that tree could have succeeded |
| Preflight.UnblockedMayReplace | internal/transfer/diff.go:321-342 | Once the copies are staged an entry does not block if and only if the job may replace what stands there, or force is denied only by the destination's own ownership test |
| Landing.ResolveExistingLoop | internal/transfer/roots.go:91-112 | The upward loop computes the longest resolving prefix with the rest rejoined, and fails on anything but a missing name |
| Landing.MkdirAllLands | internal/transfer/roots.go:91-112 | With links on the way, MkdirAll makes directories only on the way to resolveExisting(p) and ends there |
| Landing.ResolvedIsNew | internal/transfer/roots.go:91-112 | Where a path that does not resolve is put, nothing stands but possibly a dangling link |
| Landing.MkdirAllExactly | internal/transfer/install.go:195-232 | With links on the way, MkdirAll succeeds if and only if the directory is there, or some directory on the way has room for the next name |
| Landing.PlaceExactly | internal/transfer/install.go:195-232 | A file or link is placed if and only if its directory can be made and its name is free there, or, for a file, held by anything but a directory |
| Landing.DirPlaced | internal/transfer/install.go:213-232 | A directory is placed if and only if it can be made |
| Landing.ChainIsFollowed | internal/transfer/roots.go:91-112 | A chain of links is followed if and only if it has at most 40 links for the kernel, and 255 for EvalSymlinks |
| Landing.TargetInsideMeans | internal/transfer/validate.go:381-406 | A link's target that climbs some directories and goes down some names is let through only if that place, counted off the link's own path, lies under the declared directory as it is spelled and as both resolve |
| Landing.SiblingIsRefused | internal/transfer/validate.go:381-406 | A link right below its declared directory never leads to the directory's sibling |
| Landing.AbsoluteIsRefused | internal/transfer/validate.go:381-406 | An absolute or an empty target is never let through |
| Landing.PlacementLands | internal/transfer/install.go:195-232 | A successful placement writes its node, changes nothing else but new directories above it, and lands at resolveExisting(Dst) if and only if it is a directory entry or Dst is not a live link |
| Landing.StaysInsideExactly | internal/transfer/validate.go:442-456 | A guarded placement stays inside its boundary if and only if it is a directory entry, its destination is no live link, or its directory resolves inside too |
| Landing.ForcedInsideExactly | internal/transfer/install.go:383-386 | What a forced replacement removes before the guard is asked is inside the boundary if and only if its directory resolves inside |
| Landing.LinkLeadsOut | internal/transfer/validate.go:442-456 | The failing input: with /r/l leading to /out and /out/x back to /r/y the guard passes for /r/l/x and /out/x is replaced |
| Landing.PlaceAll | internal/transfer/validate.go:442-489 | Over a whole manifest, each placement guarded in the tree the earlier ones left lands inside its entry's boundary, exactly unless its destination is a live link in a directory outside; a link is written only with its target inside, and nothing that was not landed upon changes |
| StepRunner.Journal.Run | internal/job/run.go:19-71 | Succeeds, saves working, exactly when every step holds; otherwise stops at the first that does not with all before it done, all after it untouched, and attempts grown by one per entry into Run |
| StepRunner.Journal.Step | internal/job/journal.go:226-238 | Finds the first step of that name, or appends it as pending; never both |
| StepRunner.Journal.Fail | internal/job/run.go:75-85 | Marks exactly that step failed with its error, the outcome failed, and keeps the journal resumable |
| StepRunner.FailureIsNamed | internal/orchestrate/runner.go:102-135 | After a failed run FirstIncomplete and FailedStep both name the failing step, and the exit code is 5 exactly when it is start |
| StepRunner.ExitCodeIs | internal/orchestrate/runner.go:102-135 | Exit code 0 says success, 5 that the failed step is "start", and there is only 1 besides |
| StepRunner.FirstWithIs | internal/job/journal.go:241-248 | The scan names the first step with the property |
| StepRunner.SaveIsDurable | internal/job/journal.go:126-169 | A save, failed or not, keeps the disk resumable at every moment of the trace |
| StepRunner.EnteredIsDurable | internal/job/run.go:45-58 | Run is entered only after its attempt is on disk |
| StepRunner.Replay | internal/job/run.go:19-71 | Over any history of invocations killed anywhere, the journal stays continuable and counts each step's entries, over-counting at most once per invocation |
| Orchestrate.ConfirmBeforeExit | internal/orchestrate/steps.go:862-942 | Whenever the source's Claude is asked to exit, the destination's was confirmed on the plan's pane earlier in the same invocation, or with no tmux had been resumed under a pty by this job |
| Orchestrate.RecordedAtMostOnce | internal/orchestrate/steps.go:973-1003 | Over the life of a job a side is recorded a second time only by a later invocation, and never once a plan saying so is on disk |
| Orchestrate.DeathForgetsRecord | internal/orchestrate/steps.go:981-998 | The window left: an invocation that dies after Record and before the save leaves the next one free to record again |
| Orchestrate.InstalledIDsAreKept | internal/orchestrate/steps.go:402-416 | No installed id the plan ever had on disk is lost, and each came from a report of this job |
| Orchestrate.FoldInstalledIDs | internal/orchestrate/steps.go:402-416 | Folding a report keeps the recorded ids in place, adds the new ones once each and no others |
| Orchestrate.LoadedIsJustified | internal/orchestrate/runner.go:22-92 | What an invocation loads after any crash is backed by events that happened |
| Orchestrate.Life | internal/orchestrate/runner.go:22-92 | Every history of invocations, each dying after some event, is safe and leaves a plan to continue from |
| Orchestrate.Runner.Persist | internal/orchestrate/steps.go:50-69 | The plan becomes the journal's, and a save leaves every earlier promise standing |
| Orchestrate.Runner.Save | internal/job/journal.go:126-169 | A save that works puts the journal's plan on disk, one that fails nothing |
| Orchestrate.Runner.RunInstall | internal/orchestrate/steps.go:525-570 | For each answer of the hosts: a report, even one that comes with a failure, is folded and persisted before the outcome counts, keeping the ids the plan had and adding exactly the report's |
| Orchestrate.Runner.VerifyStart | internal/orchestrate/steps.go:633-652 | For each answer of the hosts: satisfied exactly when the session is alive in our own pane and confirmed again, or, with no tmux, when the plan says it was resumed |
| Orchestrate.Runner.StartUnderPty | internal/orchestrate/steps.go:654-662 | With no tmux it succeeds exactly when the resume did and was persisted |
| Orchestrate.Runner.OpenPane | internal/orchestrate/steps.go:692-707 | A window is opened only where the plan has none, and is in the plan on disk before anything is typed |
| Orchestrate.Runner.FindPane | internal/orchestrate/steps.go:669-707 | The pane of the plan is used at a shell or at a trust prompt that the source's trust answers, a pane that is gone is replaced by a window that is on disk before anything is typed, and any other is left alone |
| Orchestrate.Runner.StartInPane | internal/orchestrate/steps.go:663-719 | Succeeds exactly when a pane was found, Claude was started or already waited there, was confirmed, and the plan persisted; for each answer of the hosts it opens, types and confirms just that, in this order, and nothing over a pane that is not at a shell |
| Orchestrate.Runner.VerifyShape | internal/orchestrate/steps.go:723-757 | For each target state and pane: exactly when the destination already has its shape, and when that cannot be said |
| Orchestrate.Runner.RunShape | internal/orchestrate/steps.go:759-792 | For each answer of the hosts: a live Claude is asked to exit at the destination's pane, then a suspended target gets its placeholder, and an idle one loses a window of our own that is back at a shell; it succeeds exactly when all of that did |
| Orchestrate.Runner.VerifyThawExit | internal/orchestrate/steps.go:833-860 | Satisfied exactly when the source never ran, or was seen gone with its pane gone, at a placeholder or at a shell |
| Orchestrate.Runner.LetSourceGo | internal/orchestrate/steps.go:874-917 | A live source is thawed, in !-mode waited for until idle, and only then asked to exit, at its pane, or by signal when its terminal could not be given back |
| Orchestrate.Runner.RunThawExit | internal/orchestrate/steps.go:862-942 | Succeeds only once the source was seen gone, types at its pane only after that, and asks a live one to exit |
| Orchestrate.Runner.RecordAt | internal/orchestrate/steps.go:977-998 | One side is recorded unless the plan says so, and then the plan notes it and is persisted, in this order |
| Orchestrate.Runner.RunRecord | internal/orchestrate/steps.go:973-1003 | Succeeds exactly when both sides are recorded and persisted and both are cleaned up, which happens only afterwards, the destination first |
| Orchestrate.Runner.Step | internal/job/run.go:23-67 | One turn of the loop, saved or, when satisfied and done already, not: a step that held leaves what later steps rely on |
| Orchestrate.Runner.RunJob | internal/orchestrate/runner.go:22-92 | One invocation, with early failures and a failing last save, keeps the log safe |
| JournalSharing.ProgressIsNeverLost | internal/job/journal.go:197-216 | In every interleaving the steps on disk are those of the runner's latest save, or those from before the spawn |
| JournalSharing.PidIsTheRunners | internal/orchestrate/runner.go:56-64 | After the runner's start-up save, or the merge, the pid on disk is the runner's own unless the job is finished |
| JournalSharing.FollowTellsTheTruth | internal/cli/teleport.go:423-505 | follow, which reads, asks for the pid, and reads again, reports finished only on this runner's final save, !-mode exit only on its own progress, and a runner gone only when it is dead and never saved a finished journal |
| JournalSharing.PollNotices | internal/cli/teleport.go:423-447 | A poll goes on to the verdict if and only if it reads a finished journal or, in !-mode, the exit of the source attempted again or done |
| JournalSharing.FinishIsReported | internal/cli/teleport.go:423-505 | From every start there is a run in which the job finishes and is reported finished |
| JournalSharing.ThawIsReported | internal/cli/teleport.go:423-505 | In !-mode there is one in which the attempt to exit the source is reported before the job has finished |
| JournalSharing.DeathIsReported | internal/cli/teleport.go:433-447 | And one in which a runner that dies at its start is reported gone |
| JournalSharing.DeadRunnerIsNoticed | internal/cli/teleport.go:433-456 | Once the runner is dead each move of follow brings it nearer its verdict and nothing takes it back |
| JournalSharing.FollowNeverBlocks | internal/cli/teleport.go:423-456 | Until it has a verdict follow can always move |
| JournalSharing.FourMovesEnd | internal/cli/teleport.go:423-456 | In any run follow has its verdict after at most four moves of its own past the runner's death |
| Multiplexer.OnlyOwnResponse | internal/remote/client.go:311-389 | In every interleaving a call only ever returns the response with its own id, and its channel is sent to at most once |
| Multiplexer.TakenIsDelivered | internal/remote/client.go:311-328 | In every run, once the reader has taken the response to a waiting call and scans again, the call holds that very response, has returned it, or gave up |
| Multiplexer.TwoStepsDeliver | internal/remote/client.go:316-325 | Two steps after taking it the reader has put the response into the call's empty channel |
| Multiplexer.HeldIsReturned | internal/remote/client.go:366-389 | A waiting call that holds a response can return it whatever else goes on |
| Multiplexer.CallRegisters | internal/remote/client.go:343-365 | A call on a live connection registers under a new id, higher than any before, and one on a closed or ended connection is turned away |
| Multiplexer.RejectedIsClosed | internal/remote/client.go:343-350 | Only a closed or ended connection turns a call away |
| Multiplexer.CallIsAnswered | internal/remote/client.go:311-389 | From every start there is a run in which a call is made, its response arrives, and the call returns it |
| Multiplexer.IdsAreUnique | internal/remote/client.go:343-365 | No two calls ever share an id |
| Multiplexer.HeldLockIsReleased | internal/remote/client.go:329-341 | Whoever holds the mutex can always step and owes less afterwards: no send under the lock can block |
| Multiplexer.OthersKeepDebt | internal/remote/client.go:311-410 | While the mutex is held nobody adds to what its holder has to do |
| Multiplexer.DeliveryNeverBlocks | internal/remote/client.go:311-328 | The reader always finds room for what it delivers |
| Multiplexer.NoLostWakeup | internal/remote/client.go:329-341 | Once the read loop has ended every waiting call has something to receive and later calls are turned away |
| Multiplexer.CallsAdvance | internal/remote/client.go:343-389 | Every step of a call brings it nearer its return |
| Multiplexer.CallsReturn | internal/remote/client.go:343-389 | After the end of the connection a call can step whenever the mutex is not someone else's |
| Multiplexer.NextKeeps | internal/remote/client.go:311-410 | Every step of every party keeps the invariant between ids, pending map, channels and mutex |
| Freezer.GroupToSignal | internal/procx/freezer.go:250-265 | A group is signalled only if it is the target's, a real group, and neither the helper's nor the owner's; otherwise the bare pid, and exactly then |
| Freezer.StoppedIsGuarded | internal/procx/freezer.go:204-240 | A stopped target has a live helper before its SIGCONT, unless and only unless kill refused that SIGCONT; both signals go to the same recipients, never to the helper's group or a living owner's |
| Freezer.WhoIsStopped | internal/procx/freezer.go:250-296 | Over whole runs the group that was stopped is the target's, unless that is no real job, the helper's or its living owner's, and then the target alone |
| Freezer.RefusedIsLeft | internal/procx/freezer.go:228-230 | After a refused SIGCONT only the target's own end or somebody else changes that it is stopped |
| Freezer.ReportsAreTrue | internal/procx/freezer.go:126-191 | A Freezer was handed out only after the target was sent SIGSTOP; a Thaw without an error leaves it not stopped, one that reports the helper's error had its SIGCONT refused, and a failed Freeze leaves it stopped only then |
| Freezer.HelperNeverBlocks | internal/procx/freezer.go:204-240 | Once the pipe has data or its end, the helper can step while the target is stopped, if and only if its SIGCONT was not refused |
| Freezer.DeathReleases | internal/procx/freezer.go:204-240 | The owner's death, whatever it was doing, ends the pipe |
| Freezer.ReleaseLeadsToRunning | internal/procx/freezer.go:204-240 | After the release every helper step lowers a measure and nobody raises it or takes the release back |
| Freezer.EnoughStepsThaw | internal/procx/freezer.go:204-240 | Over whole runs, once the helper took its remaining steps the target is running or gone, or its SIGCONT was refused |
| Freezer.FreezesAndThaws | internal/procx/freezer.go:126-191 | From every start there is a run in which the target is stopped, thawed by its owner and runs again, SIGCONT to whom SIGSTOP went, the terminal left alone |
| Freezer.DeathThaws | internal/procx/freezer.go:225-240 | And one in which the owner dies holding it and the target runs again with its terminal restored |
| Freezer.GoneIsLeft | internal/procx/freezer.go:204-240 | A target that is gone is not signalled; the helper exits |
| Freezer.RestoreOnlyForTheDead | internal/procx/freezer.go:225-240 | The helper restores the terminal only after the pipe's end and after its SIGCONT |
| Tmux.ParseReplies | internal/tmuxx/parse.go:55-99 | The one-pass parser with its three variables computes the two-state reading of the stream, and says when it was cut |
| Tmux.FramingRoundTrip | internal/tmuxx/parse.go:55-112 | Any sequence of replies written as numbered blocks with notifications between and inside is recovered in order with lines and error marks, lines that look like another block's end included |
| Tmux.OtherNumberStays | internal/tmuxx/parse.go:77-85 | A block is closed by an end or error line of its own number and by no other |
| Tmux.DroppedExactly | internal/tmuxx/parse.go:86-112 | A line inside a block is dropped if and only if its first word is one of the notifications |
| Tmux.FieldsSplit | internal/tmuxx/parse.go:66-78 | A line splits into fields at white space, one after the other |
| Tmux.CutIsNoticed | internal/tmuxx/parse.go:55-99 | A stream cut inside a block yields the replies before it and is reported as cut |
| Tmux.Client.Next | internal/tmuxx/client.go:139-154 | Exactly the next reply in order, the end when the stream has ended, or a cancellation that marks the client desynchronised and takes nothing |
| Tmux.Client.Run | internal/tmuxx/client.go:157-174 | For each outcome of the write, the wait and the stream: a reply returned is the reply to this very command; a desynchronised client sends nothing and a cancelled wait desynchronises it |
| Tmux.Converse | internal/tmuxx/client.go:139-174 | Over a whole conversation the n-th command the server received gets the n-th reply, and nothing is answered after a cancelled command |
| PathMap.Apply | internal/session/pathmap.go:98-127 | The index-driven loop with its early return computes the scan |
| PathMap.PathBytesAre | internal/session/pathmap.go:84-92 | White space, quotes, separators and brackets end a path in text; every other byte may stand in one |
| PathMap.ApplyIsTokenwise | internal/session/pathmap.go:86-127 | When all Froms consist of path bytes the scan is the rewriting of each maximal path-byte run on its own |
| PathMap.RewriteRunIsLongest | internal/session/pathmap.go:51-127 | A run is rewritten by a longest From that it equals, lies below, or equals with a final dot |
| PathMap.OrderDoesNotMatter | internal/session/pathmap.go:51-67 | Two maps with the same mappings rewrite every text alike |
| PathMap.ReversedUndoes | internal/session/pathmap.go:98-127 | One mapping of path bytes is undone by the reversed one on text in which nothing looked like its To |
| PathMap.TokenwiseExactly | internal/session/pathmap.go:86-127 | A single mapping is token-wise on every text if and only if its From consists of path bytes or it maps to itself |
| PathMap.ApplyPath | internal/session/pathmap.go:72-82 | A whole path is rewritten by the longest From it is or lies under, and otherwise kept |
| PathMap.New | internal/session/pathmap.go:51-67 | Builds exactly from specs that are absolute and distinct after cleaning, keeps all of them, longest From first; otherwise names one that is not absolute, or a From that came twice |
| Rewrite.RewriteValue | internal/session/rewrite.go:19-47 | The result is a rewriting of the value, and changed says whether some string or key was changed |
| Rewrite.RewrittenOnce | internal/session/rewrite.go:19-47 | Without key collisions the rewriting of a value is unique |
| Rewrite.UntouchedStays | internal/session/rewrite.go:19-47 | A value in which nothing changes is returned as it was |
| FastForward.DeterminedExactly | internal/session/rewrite.go:30-44 | Whatever order the keys are visited in the rewriting is the same, if and only if keys that rewrite to one carry entries that rewrite to one, at every depth |
| Rewrite.RewriteJSONL | internal/session/rewrite.go:72-111 | Writes a rewriting of every line, copies what does not parse, and counts records, rewritten and unparseable lines |
| Rewrite.RewriteDistributes | internal/session/rewrite.go:72-111 | The outputs for a + b, a ended, are exactly those for a followed by those for b |
| Rewrite.IsRecordPrefix | internal/session/recordprefix.go:20-49 | The side-by-side scan decides whether the records of one file are a prefix of the other's, blank lines aside |
| Rewrite.RecordsAgree | internal/session/recordprefix.go:70-83 | Two records agree when they are the same text or say the same value |
| Rewrite.NextRecord | internal/session/recordprefix.go:57-68 | Returns the next non-blank line trimmed, or that there is none |
| Rewrite.RecordPrefixIsPreorder | internal/session/recordprefix.go:20-83 | The relation is reflexive and transitive |
| Rewrite.AppendingIsFastForward | internal/session/recordprefix.go:20-49 | Appending to a file that ends in a newline is a fast-forward |
| FastForward.PairExactly | internal/session/rewrite.go:72-111 | Two equal records stay equal however they are rewritten, if and only if both are copied, or one is copied and is already what the other becomes, or both become one value, none of them arbitrary |
| FastForward.SurvivesExactly | internal/session/recordprefix.go:20-83 | A fast-forward stays one when both files are rewritten by a path map, whatever order keys are visited in, if and only if that holds for every pair of its records under that map |
| FastForward.FastForwardSurvives | internal/session/recordprefix.go:20-83 | It does when every record parses the same trimmed or not and no keys collide |
| FastForward.CollisionLosesFastForward | internal/session/rewrite.go:30-44 | The failing input: an object with the keys /a and /b, under a map of both to /c, makes a file that is no longer a fast-forward of its own rewriting |
| FastForward.MarginLosesFastForward | internal/session/rewrite.go:80-103 | The failing input: a line with a trailing space the JSON parser rejects is copied while its plain twin is rewritten, under a map of /a to /b |
| Prefix.File.ReadFull | internal/session/prefix.go:30-52 | Reads as many bytes as wanted or there are, with the end reported as io.ReadFull does |
| Prefix.IsPrefix | internal/session/prefix.go:12-53 | The chunked comparison decides byte prefix |
| Merges.MergeAddsOnly | internal/session/history.go:51-91 | The result begins with the existing bytes and lines, its keys are the union, each missing key was added once, and a second application changes nothing |
| Merges.MissingKeys | internal/session/history.go:74-86 | The appended lines carry exactly the missing keys, each once |
| Merges.AppendHistory | internal/session/history.go:51-91 | The buffered loop computes that merge and its count, fails exactly when a line is not JSON, and never loses existing bytes |
| Merges.MergeMemoryIndex | internal/session/memoryindex.go:35-78 | Computes that merge and its count, and leaves the file alone when there is nothing to add |
| Merges.MemoryRuleApplies | internal/session/memoryindex.go:41-57 | The trimmed-line rule of the memory index meets what the merge needs, for every file |
| Merges.MemoryKeyIs | internal/session/memoryindex.go:41-57 | A line of the memory index counts by its trimmed text, a blank one not at all |
| Merges.HistoryRuleApplies | internal/session/history.go:18-18 | So does the timestamp and session rule of the history, for JSON lines without a newline |
| Merges.HistoryKeyIs | internal/session/history.go:12-18 | A history line counts by its trimmed raw timestamp and its session id, one that cannot be read not at all |
| GitTransfer.PlanTransfer | internal/gitx/plan.go:77-158 | Accepts exactly when the repositories, the branch and the checkout agree; then mode, have-tips, fast-forward and need of a pack are as the states say |
| GitTransfer.WritePack | internal/gitx/pack.go:24-57 | The pack is the closure of what is wanted without what a known have-tip reaches, and fails exactly on a missing wanted object |
| GitTransfer.PackCompletes | internal/gitx/pack.go:24-57 | Added to any closed store with the have-tips it leaves a closed store that holds everything wanted |
| GitTransfer.Repo.EnsureBranch | internal/gitx/attach.go:225-247 | Creates the branch, finds it at the tip, or moves it forward to the tip; otherwise refuses and changes nothing |
| GitTransfer.Repo.ApplyTreeDiff | internal/gitx/attach.go:427-462 | The working files follow the difference of the two trees and no other file changes |
| GitTransfer.Repo.FastForwardCheckout | internal/gitx/attach.go:396-423 | Nothing when the checkout already sat at the tip, else HEAD and the index are at the tip and the differing files have moved |
| GitTransfer.MovedIsClean | internal/gitx/attach.go:396-462 | A clean checkout whose index is reset and whose files follow the tree difference is clean again |
| GitTransfer.Repo.CreateLinkedWorktree | internal/gitx/attach.go:280-331 | A linked worktree is populated from the tip, and left alone when an earlier attach made it |
| GitTransfer.Repo.Populate | internal/gitx/attach.go:177-204 | The checkout's half, path by path: every dirty file holds its dirty content, every other file of a new linked worktree is the tip's, of a re-run what it was, and of the main checkout what the move from its head to the tip makes it; the index is the dirty one if there is one, else the tip's |
| GitTransfer.Repo.AttachExisting | internal/gitx/attach.go:117-204 | A refused attach changes nothing, and a foreign worktree, a branch checked out elsewhere, an unclean checkout and another branch are refused; a failed one has at most moved the branch forward; a successful one leaves branch, objects, index and files at the tip with every dirty file on top; stopped between branch and checkout, no later attach to that checkout passes the gate |
| GitTransfer.TransferIsComplete | internal/gitx/attach.go:117-204 | Plan, pack and attach together: the old tip is an ancestor of the new, other branches are unchanged, and the store holds the whole closure of the tip and every staged blob, with or without a pack |
| GitTransfer.AncestorsTrans | internal/gitx/attach.go:225-247 | Ancestry, which decides what is a fast-forward, is transitive |
| GitTransfer.ParentIsAncestor | internal/gitx/attach.go:225-247 | And holds of the commit itself and of each of its parents |
| SshConfig.SplitArgs | internal/sshx/matchexec.go:57-83 | The accumulator loop computes the tokens, or rejects an unbalanced quote |
| SshConfig.ArgsRoundTrip | internal/sshx/matchexec.go:57-83 | Words written bare or quoted and joined by blanks are read back |
| SshConfig.KeywordIs | internal/sshx/config.go:26-43 | A line is read as its keyword and, after blanks or "=", the rest with no space around it |
| SshConfig.NoKeyword | internal/sshx/config.go:26-43 | An empty line and a comment have no keyword |
| SshConfig.CaseIsIgnored | internal/sshx/config.go:117-152 | Keywords are compared without regard to case |
| SshConfig.LeadingSpaceIs | internal/sshx/config.go:44-49 | The indentation kept is the longest beginning of blanks and tabs |
| SshConfig.GuardIsCriteria | internal/sshx/matchexec.go:155-218 | The hosts and commands collected from a guard mean the conjunction of its criteria |
| SshConfig.ExecGuards | internal/sshx/matchexec.go:155-218 | A guard that is one exec holds exactly when the command succeeds, a negated one exactly when it fails, and neither when it does not run |
| SshConfig.EvalMatch | internal/sshx/matchexec.go:155-218 | Drops an undecidable or failing guard, keeps one without exec, else writes the guard without exec |
| SshConfig.RepairLine | internal/sshx/config.go:117-152 | One line of the loop: what stands there afterwards and whether its block is being blanked |
| SshConfig.SanitizeConfig | internal/sshx/config.go:117-152 | In place, line by line, with the line count kept; unchanged when it says so |
| SshLookup.PreservedExactly | internal/sshx/config_test.go:146-149 | For any guard and any text in its place: the parser reads the text as the whole guard for every way patterns match and every host, if and only if neither names a pattern or both name one and the same, or, for a guard that never holds, the parser refuses the text |
| SshLookup.RewrittenExactly | internal/sshx/matchexec.go:205-218 | A rewritten guard is read in full if and only if it names no host pattern, or only one, a plain word |
| SshLookup.NoPatternKept | internal/sshx/matchexec.go:217-217 | With no pattern it always is |
| SshLookup.OnePatternExactly | internal/sshx/matchexec.go:205-218 | With one pattern it is if and only if that is a plain word |
| SshLookup.TwoPatternsExactly | internal/sshx/matchexec.go:205-218 | With two it is if and only if they are the same plain word |
| SshLookup.KeepExactly | internal/sshx/matchexec.go:202-204 | A guard left as it is, without quotes, is read in full if and only if it is "all" or repeats one word after its first "host" |
| SshLookup.KeptHostsAreMisread | internal/sshx/matchexec.go:202-204 | The failing input of a kept guard: "host a host b" is read as the patterns a, host and b, and holds on a host that matches only b |
| SshLookup.CompoundIsMisread | internal/sshx/config_test.go:146-149 | The failing input of an unrepaired one: "host a user b" holds on any host that matches user |
| SshLookup.DecodePreservesLookup | internal/sshx/config.go:171-193 | When every guard is read in full, as it stands in a file the parser takes, or as the repair leaves it in one it refuses, the file is decoded and every lookup obtains what the full reading of each guard obtains |
| SshLookup.FirstObtained | internal/sshx/config.go:171-193 | In a block that applies the first line with a keyword decides it, and in one that does not nothing is found |
| SshLookup.ParserAccepts | internal/sshx/config_test.go:146-149 | The parser accepts exactly "all" alone and "host" with patterns |
| SshLookup.OneBlockExactly | internal/sshx/config.go:171-193 | A block of one guard and one setting is decoded and looked up so, for all patterns and hosts, if and only if its guard is read in full |
| SshLookup.TwoHostsAreMisread | internal/sshx/matchexec.go:205-218 | The failing input of a rewritten guard: "host a host b exec true" comes out as "host a b", which holds on a host that matches only b |
| Quoting.Quote | internal/tmuxx/quote.go:33-52 | The byte loop writes the quoted form |
| Quoting.QuoteRoundTrip | internal/tmuxx/quote.go:14-52 | The quoted form followed by anything reads back as the one argument and contains no raw line end |
| Quoting.EscapesAre | internal/tmuxx/quote.go:33-52 | Character by character: backslash, double quote and dollar get a backslash, a line end its letter, the rest stays |
| Quoting.RenderArgv | internal/sshx/target.go:59-69 | Fills and joins the words, bare only when every character is safe |
| Quoting.SafeAre | internal/sshx/target.go:21-21 | The safe characters are the letters, the digits and nine more |
| Quoting.SafeIsOrdinary | internal/sshx/target.go:21-21 | None of them is among the characters that must or may have to be quoted for a POSIX shell |
| Quoting.ShellRoundTrip | internal/tmuxx/pane.go:105-111 | Split by a reader that knows only sections 2.2.1 and 2.2.2 of the POSIX.1-2017 Shell Command Language, and refuses every other character section 2.2 names, the rendered line gives argv back, for ShellQuote and for sshx.Quote; ShellQuote leaves nothing unquoted |
| Quoting.RunsExactly | internal/sshx/target.go:59-69 | The rendered line runs as that argv if and only if its first word is not written bare where it is a reserved word or an assignment |
| Quoting.AssignsExactly | internal/sshx/target.go:59-69 | A word is an assignment exactly when what stands before its first "=" is a name |
| Quoting.AssignmentDoesNotRun | internal/sshx/target.go:59-69 | The failing input: a command whose name is A=value runs when ShellQuote writes it, and not when sshx.Quote does |
| Quoting.SpecialsRefused | internal/tmuxx/pane.go:105-111 | That reader takes no line with a special character bare in a word |
| Quoting.UnvisName | internal/tmuxx/quote.go:74-107 | The loop with its octal accumulator computes the decoding |
| Quoting.UnvisRoundTrip | internal/tmuxx/quote.go:54-107 | Decoding inverts the backslash, tab, newline and three-digit octal encoding of every byte string |

## Left out

Transfer engine:

- Paths in `Transfer` are lexical: Diff and Install do not follow a symbolic link
  that stands above a destination. Resolution through links, and the re-check
  before each placement (internal/transfer/validate.go:442-489), are in `Landing`;
  uninstall follows links in `Removal`.
- Host.Host.Place: does not model the re-check right before a placement, which is
  in `Landing.PlaceAll`.
- Uninstall.UninstallIsConservative: does not model uninstall's own resolution of
  the roots through links (internal/transfer/install.go:525-534), which can only
  refuse more, nor trailing slashes in a link's text.
- Memory files, the sessions index, history, the project entry and the trust
  answer of Install (internal/transfer/install.go:392-454) are not part of a run;
  the two merges are in `Merges`.
- File modes, mtimes, and I/O errors other than those that follow from the tree.
- The copy fallback of moveFile across file systems
  (internal/transfer/install.go:108-133): it is taken as one action. Its temporary
  file is opened exclusively, so one left by a crash makes the resumed placement
  fail until it is removed.
- Uninstall.UnsavedCrashIsForgotten: a deferred capture is excluded; every run
  places it anew.
- Uninstall.RunThenUninstallRestores: only for jobs whose roots are their own,
  because claimed directories are recomputed from the reduced manifest; for other
  roots only that nothing else is removed is proved. Removal errors are not modelled.
- Host.CreatedDirs: directories of one depth come in any order; the source sorts
  those by name.
- The symlink-target rule, forbidden settings, path munging, session ownership
  and the prefix test are arbitrary decisions (`Policy`); the rest of building a
  manifest is not modelled.
- Preflight.FfAllowed: session ids hold no "/"; they are UUIDs.
- A manifest that changes between attempts: a staged copy is recognised by its
  size alone (internal/transfer/diff.go:88, internal/transfer/stream.go:169).
- Landing.PlaceAll: does not model the boundary itself, which is given with each
  entry, the forced removal before the guard, which is `Landing.ForcedInsideExactly`,
  nor other processes changing the tree between the guard and the write.

Step machine:

- Progress of `continue` is not claimed: after shape has typed a placeholder for
  a suspended target, runStart refuses a pane that is not a shell
  (internal/orchestrate/steps.go:676-686).
- Orchestrate.Runner.Step: the journal's statuses and attempts are in
  `StepRunner`; here a step is only what it may do to the plan and the hosts.
  Freeze, capture, transfer and git attach appear as steps that may persist and
  may fail; ids the destination already owned are not modelled.
- Orchestrate.RecordedAtMostOnce: a record whose answer was lost counts as a
  record.
- Orchestrate.Runner.RunThawExit: statuses, panes, signals and waiting times are the
  hosts' answers; what is proved holds for each of them.
- JournalSharing.PidIsTheRunners: fields other than the steps, the finished flag
  and the pid are not modelled, nor is a reused pid.
- The printed log, exit messages, flags and rendering of the CLI.

Protocols:

- Multiplexer.NoLostWakeup: response decoding, logging and the connection's own
  close are not modelled.
- Freezer.StoppedIsGuarded: process groups are taken not to change while a target is
  frozen; a helper killed with SIGKILL, a pid reused between the identity check and the
  signal, and others stopping the target are not modelled.
- Tmux.Client.Run: a failed write is taken to have sent nothing; dialling and
  probing the socket are not modelled.
- ssh, tmux processes, ptys, /proc, gzip and tar.

Rewriting and merges:

- PathMap.New: cleaning of paths is any function giving an absolute path or
  nothing.
- Rewrite.IsRecordPrefix: lines beyond the scanner's limit of 64 MB
  (internal/session/meta.go:18) and read errors are not modelled.
- Rewrite.RewriteJSONL: read and write errors are not modelled, nor is RewriteJSON
  of whole documents.
- FastForward.SurvivesExactly: the codec is any that reads back, on one line with
  no space around it, every value with well-formed numbers nested up to its limit;
  which values a given path map makes collide is computed from the map, not listed.
- Merges.AppendHistory: on an error the part of the buffer already flushed is
  any prefix; I/O errors are not modelled.

Git:

- GitTransfer.Repo.AttachExisting: the containment check of dirty files, file
  modes, a git operation that fails half way (populating, resetting, copying a dirty
  file), conflicts between directories and files, submodules and the repair of a
  linked worktree's metadata are not modelled; fresh clones of the main repository
  go through the transfer engine.
- GitTransfer.WritePack: pack bytes and indexing; a pack is the set of its objects.

Text formats:

- SshLookup.DecodePreservesLookup: configs with Include lines are excluded, keywords
  are lower-cased in ASCII only, and parse errors other than a refused Match line
  are not modelled.
- SshLookup.PreservedExactly: the ssh_config parser is not part of this model. Its
  reading of a Match line is what internal/sshx/matchexec.go:35-38 and
  internal/sshx/config_test.go:146-149 say of it: "all", or "host" and a list of
  patterns, anything else refused. Words are taken to stand between blanks, quotes
  to be ordinary characters, and one pattern to match as it does in a full reading;
  comments after a value, and what "!" and "," mean inside a pattern, are not modelled.
- SshLookup.KeepExactly: guards left as they are that hold quotes are covered by
  `SshLookup.PreservedExactly` only.
- Quoting.QuoteRoundTrip: the reader is the double-quote rule stated in
  internal/tmuxx/quote.go:14-32, not tmux's own parser.
- Quoting.ShellRoundTrip: the reader refuses every character section 2.2 says must
  be quoted or may have to be, except "=", which `Quoting.RunsExactly` covers, and
  "%", which means something only to the job-control built-ins; so it says nothing
  about expansions, nor about aliases.
- Tmux.FieldsSplit: white space is ASCII only.
