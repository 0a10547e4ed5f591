# Verified model of wsmr

wsmr manages Wayland sessions under the systemd user manager. This project models the parts of it that must stay
correct across several processes, several runs or several programs, and proves what they promise.

1. **The session environment.** `prepare-env`, `finalize`, the readiness watcher and `cleanup-env` are separate processes.
   They share a live environment kept in two stores (systemd and D-Bus) and three state files (`generation`, `env_pre`,
   `env_cleanup.list`) behind one lock. Modules `EnvDelta`, `Bus`, `Generation`, `SessionState`, `Session`, `Protocol`,
   `ProtocolRuns`, `Abandoned`.
2. **Unit generation with ownership.** A planner classifies every destination, an applier writes and removes with an undo
   log, and a manifest of fingerprints decides what may be touched. Modules `Fingerprints`, `Ownership`, `UnitPlan`,
   `UnitNames`, `UnitEffect`, `UnitApply`, `UnitRemoval`, `UnitRuns`, `Marks`.
3. **Printers and parsers that must undo one another.** Shell quoting, `Exec` tokenizing and field expansion, environment
   dumps, drop-ins and the `aux` arguments they start, unit-name escaping and truncation, the terminal lists and the
   not-terminals cache. Modules `EnvFiles`, `Shell`, `CommandLine`, `UnitFile`,
   `Dropin`, `DropinStart`, `DropinCases`, `ExecField`, `ExecArgs`, `ExecFields`, `Escape`, `Naming`, `Terminal`.

Code that changes state in place is a class whose methods are proved against specification functions; loops are loops with
invariants. `Wrappers`, `Strings`, `Utf8` and `VarNames` hold what the others share. Strings are sequences of characters;
where bytes matter (fingerprints, escaping, file URLs) they go through `Utf8.Encode`. Every call that can fail in the
source fails nondeterministically in the model, unless its object is said to be reliable; so a contract says what each
failure leaves behind, and also that nothing but such a failure keeps the operation from succeeding.

## How the main results fit together

* `SessionState.StateFiles` is the code of `state.rs`; its methods are proved against the value-level algebra of
  `Generation`. There, `RestoreMeaning` says for every name what a restore does, `FailedRestoresConverge` that any number
  of restores stopped at any bus update are made good by a later one, and `SessionIsIdentity` that preparing and ending a
  session is the identity up to protected names.
* `Protocol` interleaves any number of such processes, one step per lock operation, file access and bus update, with
processes dying, removals failing and outside writers at any point. `ApplyKeepsInv` is its invariant; `NoUpdateIsLost`,
  `ExportsAreCovered` and `EndRestoresSession` are laws about runs, with no assumption on the order of the processes: they
  speak of what the processes, the files and the stores are at points of a run, and a session is a stretch of it in which
  no restore or begin is under way.
  `NoLateExports` says what the ordering of the units adds. `ProtocolRuns` joins the two models: uninterrupted runs of
  `prepare-env`, `finalize` and `cleanup-env` end exactly where the value-level model says.
* `UnitApply.UnitDir` is the code of `generate.rs`. Each method says exactly which directory and manifest it leaves,
  on success and after a rollback; `UnitEffect` says what a plan means for each path, and `UnitRuns` proves ownership over
  all histories of generations, removals and foreign edits.
* Every printer is paired with an independent reader: POSIX word recognition (`Shell.Lex`), systemd's unit files
  (`UnitFile.ReadUnit`) and command lines with quotes, C escapes, specifiers and variables (`CommandLine.Arguments`),
  systemd unescaping (`Escape.Unescaped`), percent decoding, or the repository's own parser.

## Where the code does not do what it is meant to do

Each of these has its exact condition as a lemma, and an input that shows it.

* A plain error of `set_systemd_vars` is documented to leave nothing applied. The query whether the daemon is dbus-broker
  runs after systemd was updated and may be what failed (`Bus.PlainErrorAfterUpdate`). Only an error of the first call
  leaves nothing applied, unless there was nothing new to apply (`Bus.PlainErrorLeavesNothingIff`), so a caller who cannot
  tell the calls apart can rely on it only in that last case (`Bus.EveryPlainErrorLeavesNothingIff`).
* `prepare-env` takes its snapshot before it resolves abandoned state, so a session started over abandoned state can end
  with a leaked variable live again (`Abandoned.LeakedNameComesBack`). `Abandoned.SafeToPrepareIff` gives the check on the
  files and the environment that decides whether a session is undone whatever its loader returns.
* A process that dies between writing `generation` and writing `env_pre` makes the next restore unset names with nothing
  to put back (`ProtocolRuns.CrashWindowIsReached`); it is harmless exactly when no name of the fixed cleanup list is live
  (`Abandoned.CrashWindowIff`). Files that a completed restore left behind are harmless under the exact condition of
  `Abandoned.LeftoverIsHarmlessIff`.
* Recording and exporting are not one critical section: an export that comes after the end of its session stays until
  another generation begins (`Abandoned.LateExportStays`), and whether it survives the next restore then depends on what
  that finds on disk (`Abandoned.LateExportSurvivesIff`). The unit ordering rules late exports out
  (`Protocol.NoLateExports`).
* Rolling back a batch loses a file that existed but could not be read as text (`UnitApply.UnreadableFileIsLost`); the undo
  is exact if and only if no touched path was one (`UnitApply.UndoIsExactIff`). Plans never contain such a path, so a batch
  applied to the directory it was planned on is undone exactly (`UnitRuns.FailedStepIsUndone`).
* `stop -r <id>` compares the id with the escaped unit string in the path and misses every id with a dash
  (`Marks.DashedIdIsMissed`, `Marks.IdSelectsItsDropinsIff`). The documentation of `plan_remove_all` calls the mark a
  compositor id. A compositor called `tweaks` shares its mark with the tweaks (`Marks.TweaksIdCollides`); what a mark
  selects is `Marks.MarkSelectsIff`.
* A drop-in does not bring back the command line of a compositor named by a relative path with a slash
  (`DropinCases.RelativePathChanges`), one with an argument that means something to systemd, such as a C escape
  (`DropinCases.EscapedArgumentChanges`), or one whose description ends in a backslash and so swallows the next line
  (`DropinCases.DescriptionCostsCommand`); `DropinStart.ServiceRoundTripIff` is the exact condition. A description with
  line breaks may even bring a command of its own (`DropinCases.DescriptionBringsCommand`), which then runs instead
  (`DropinStart.OwnCommandRuns`); `DropinStart.OwnCommand` tells when.
* `aux prepare-env` refuses desktop names that look like an option, since they are printed as a separate word
  (`DropinCases.DashedNameIsRefused`), and a single empty desktop name is lost (`DropinCases.EmptyNameChanges`);
  `DropinStart.PreloaderRoundTrip` is the exact condition for both.
* With several arguments a field embedded in a longer word of `Exec` is left as it is (`ExecFields.FieldInPlace`, for every
  such input; `ExecArgs.MultiIff`).

The header comment of `terminal.rs` says the negative cache is left out; the code has it, and it is modelled.

## Model

| member | source | states |
|---|---|---|
| EnvDelta.ComputeChanges | src/env/delta.rs:28-85 | The loops compute the set algebra of the delta: forced, forbidden, changed and removed names, and the cleanup subset |
| EnvDelta.ApplyingChangesMerges | src/env/delta.rs:28-85 | Applying the delta to the earlier environment gives the loader's values for everything shareable, keeps the earlier value of what is only not exported, and drops what must be unset |
| EnvDelta.ChangesAreAccountedFor | src/env/delta.rs:28-85 | Every assigned name is recorded for cleanup or protected; only names of the earlier environment are unset; nothing is both assigned and unset |
| Bus.SessionBus.SetSystemdVars | src/sysd/dbus.rs:481-495 | systemd first, D-Bus second; for each result, exactly which of the two stores may have changed |
| Bus.SessionBus.UnsetSystemdVars | src/sysd/dbus.rs:499-519 | D-Bus first, systemd second; a plain error means nothing was applied, a partial one that only D-Bus was cleared |
| Bus.PlainErrorLeavesNothingIff | src/sysd/dbus.rs:231-243 | A plain error of a set left nothing applied if and only if it came from the first call or there was nothing new to apply |
| Bus.EveryPlainErrorLeavesNothingIff | src/sysd/dbus.rs:231-243 | Every plain error leaves nothing applied if and only if systemd had all the values already |
| Bus.PlainErrorAfterUpdate | src/sysd/dbus.rs:481-495 | A concrete plain error behind which systemd has been updated |
| Bus.SetKeepsDbusWithinSystemd | src/sysd/dbus.rs:481-495 | In every outcome of a set, names with a non-empty D-Bus value stay names of systemd |
| Bus.UnsetKeepsDbusWithinSystemd | src/sysd/dbus.rs:499-519 | In every outcome of an unset, names with a non-empty D-Bus value stay names of systemd |
| Generation.RestoreMeaning | src/session/state.rs:166-213 | For every name and both stores: a snapshot name is back with its value; any other survives exactly if it was live and is protected, invisible, or neither listed nor fixed for cleanup; what was unset is blank in a classic daemon and the rest there is unchanged |
| Generation.NothingLeftInDbus | src/session/state.rs:166-213 | If D-Bus knew no value systemd did not know, each value left in it after a restore belongs to a snapshot name or one that survived |
| Generation.OtherGenerationsDoNotMatter | src/session/state.rs:176-186 | Entries tagged with other generations change nothing about what a restore does |
| Generation.AppendedMeaning | src/session/state.rs:124-150 | Recording adds exactly the valid names under the current id and keeps every other entry |
| Generation.RetryFinishesTheJob | src/session/state.rs:166-213 | A restore repeated after any prefix of its updates ends where an uninterrupted one ends |
| Generation.FailedRestoresConverge | src/session/state.rs:166-213 | After any sequence of failed restores the files are still there and a successful restore reaches the failure-free result in both stores |
| Generation.ProgressKeepsDbusWithinSystemd | src/session/state.rs:201-206 | No prefix of a restore leaves a non-empty D-Bus value for a name systemd lacks |
| Generation.PreparedMeaning | src/session/prepare.rs:27-49 | A successful preparation leaves the environment seen on entry as snapshot, the recorded delta as list, and the delta applied over the resolved environment |
| Generation.SessionIsIdentity | src/session/prepare.rs:27-49 | From no state on disk, preparing with any accounted delta and ending is the identity on systemd's environment, up to newly exported protected names |
| Generation.ChangesAccounted | src/session/prepare.rs:40-49 | The delta of any snapshot and any filtered loader environment satisfies what the session theorems ask of it |
| SessionState.StateFiles.AppendCleanup | src/session/state.rs:124-150 | On success the list is the merged list under the generation on record; on failure nothing changed; without file errors it succeeds if and only if a generation is on record |
| SessionState.StateFiles.RestoreAndClear | src/session/state.rs:166-213 | Success is the full restore with every file gone but those whose removal failed; failure keeps all files and has completed a proper prefix of the updates; without errors it succeeds and leaves no file |
| SessionState.StateFiles.BeginGeneration | src/session/state.rs:109-118 | Success is a resolved environment with fresh id, snapshot and empty list, whatever could not be removed before; a failure left one of the listed intermediate states; without errors it succeeds |
| SessionState.StateFiles.EndGeneration | src/session/state.rs:156-159 | The same outcomes as a restore; without errors the result is the restored world |
| Session.Finalize | src/session/finalize.rs:14-41 | Exports exactly the valid, present names; they are recorded first, so any applied export is on the list; without errors it succeeds if and only if the display of the session is set, given a generation |
| Session.FinalizeMeaning | src/session/finalize.rs:14-41 | Afterwards the two displays and every extra name that is valid and present are set in systemd and on the cleanup list, and every other variable is as before |
| Session.ReadinessWatch | src/session/exec.rs:35-73 | Records and then exports exactly the new or changed names; systemd's environment is unchanged since these values are already there |
| Session.WatchMeaning | src/session/exec.rs:35-73 | Afterwards exactly the visible variables that are new or changed since the first look have been added to the list and passed on to D-Bus |
| Session.PrepareEnv | src/session/prepare.rs:15-49 | The loader is given an environment in which every login name has its login value and every other name is as in systemd; success is the prepared session, a failure stopped in one of the stated intermediate states, and without errors it succeeds when the loader does |
| Session.StoppedPrepareIsUndone | src/session/prepare.rs:27-49 | Wherever a preparation from a clean start stopped after its snapshot was saved, the next restore returns every unprotected name to what it was |
| Protocol.ApplyKeepsInv | src/session/state.rs:50-213 | Every step of every process, every failed removal, every death and every write from outside keeps mutual exclusion and the knowledge of the files at each program point |
| Protocol.RunKeepsInv | src/session/state.rs:50-213 | The invariant holds in every reachable state |
| Protocol.WritingKeepsInv | src/session/state.rs:124-150 | A write based on an earlier read under the lock equals the atomic append: nothing was lost in between |
| Protocol.RestoreCallAdvances | src/session/state.rs:201-206 | Each single bus update of a restore leads from one prefix of it to the next |
| Protocol.ExportsAreCovered | src/session/finalize.rs:26-41 | In every run, from the moment a process has recorded its names until the next restore or begin, each name it is to export is listed under the id on record or protected, also if the process dies |
| Protocol.NoUpdateIsLost | src/session/state.rs:124-150 | In every run, from the moment a process has recorded its names until the next restore or begin, all its names stay listed under the id on record and no entry is lost, whatever the others do |
| Protocol.EndRestoresSession | src/session/state.rs:166-213 | In every run, a restore at the end of a session that nobody else wrote into has put back the snapshot of the session; the survivors outside it are exactly characterised, in both stores; and of what any process of the session was to export only protected names or names of the snapshot are live |
| Protocol.NoLateExports | src/units/templates.rs:118-147 | In a run in which no restore or begin starts while a process sits between recording and exporting, whoever is there has its names listed under the id on record, and no restore or begin is under way |
| ProtocolRuns.PrepareRun | src/session/prepare.rs:27-49 | From any state of any other processes, an uninterrupted `prepare-env` is a run of the step model that ends in the prepared session of the value-level model |
| ProtocolRuns.RecordRun | src/session/finalize.rs:26-41 | From any state of any other processes, an uninterrupted `finalize` or watcher is a run of the step model that records and exports as the value-level model says, or is refused |
| ProtocolRuns.CleanupRun | src/session/state.rs:156-159 | From any state of any other processes, an uninterrupted `cleanup-env` is a run of the step model that ends in the restored world |
| ProtocolRuns.CrashWindowIsReached | src/session/state.rs:114-115 | A run from the initial state in which `prepare-env` dies between its first two writes, after which a restore takes away a `PATH` that had been live all along |
| Abandoned.SessionReturnsIff | src/session/prepare.rs:27-49 | Over abandoned state a session is undone if and only if the early snapshot is still right about every unprotected name |
| Abandoned.SafeToPrepareIff | src/session/prepare.rs:30-31 | A condition on the files and the environment, name by name, decides whether the session is undone for every environment the loader may return |
| Abandoned.LeakedNameComesBack | src/session/prepare.rs:30-31 | A concrete abandoned session whose leaked name is live again after the next one ended |
| Abandoned.LeftoverIsHarmlessIff | src/session/state.rs:208-210 | Whichever files a completed restore failed to remove, the next one changes nothing if and only if the snapshot is among them or no snapshot name is listed or fixed for cleanup |
| Abandoned.CrashAfterListRemoved | src/session/state.rs:208-210 | Dying after only the list was removed is harmless |
| Abandoned.LateExportSurvivesIff | src/session/finalize.rs:40-41 | Whatever a restore finds on disk, what a late export has set survives it if and only if nothing is on disk, or the snapshot has that value, or the name is outside it and protected, invisible, or neither listed nor fixed for cleanup |
| Abandoned.LateExportStays | src/session/finalize.rs:40-41 | An export made after the end of its session is left alone by restores until another generation begins |
| Abandoned.CrashWindowIff | src/session/state.rs:114-116 | With only the generation file on disk, a restore leaves the environment alone if and only if no name of the fixed cleanup list is live |
| Fingerprints.ComputeFingerprint | src/units/manifest.rs:100-109 | The loop computes 64-bit FNV-1a of the UTF-8 bytes |
| Fingerprints.MixIsBijective | src/units/manifest.rs:104-107 | For a fixed byte one step of the hash is a bijection on 64-bit words, with its inverse given |
| Fingerprints.SuffixCancels | src/units/manifest.rs:100-109 | Equal hashes after a common suffix were equal before it |
| Fingerprints.OneByteChangesFingerprint | src/units/manifest.rs:100-109 | Contents of any length that differ in exactly one byte have different fingerprints |
| Fingerprints.KnownFingerprints | src/units/manifest.rs:100-109 | The published hash values of the empty text and of one letter |
| Ownership.OneByteEditLosesOwnership | src/units/manifest.rs:75-77 | Verification rejects every substitution of a single byte |
| Ownership.Manifest.Record | src/units/manifest.rs:80-83 | After recording, the path verifies with that content and no other entry changed |
| Ownership.Manifest.Forget | src/units/manifest.rs:86-88 | After forgetting, the path verifies with no content and no other entry changed |
| Ownership.Parse | src/units/manifest.rs:43-57 | The loop reads the entries line by line, ignoring comments and malformed lines |
| Ownership.ParsedMeaning | src/units/manifest.rs:43-57 | A path is tracked exactly if some well-formed line has an entry for it, with the fingerprint of the last one |
| Ownership.Render | src/units/manifest.rs:59-66 | The loop prints the header and one line per entry |
| Ownership.ManifestRoundTrip | src/units/manifest.rs:43-66 | Parsing a rendered manifest gives the same ledger |
| UnitPlan.GenerationPlan.ClassifyWrite | src/units/plan.rs:145-179 | A graph unit is never reclaimed: whatever the flag, it gets the verdict of a destination that is refused when foreign |
| UnitPlan.GenerationPlan.ClassifyDropin | src/units/plan.rs:181-239 | Exactly one of leave, write, reclaim, remove or refuse is added for a drop-in; an unreadable file is an error |
| UnitPlan.PlanGenerate | src/units/plan.rs:93-143 | The three stages judge all destinations in order, and fail if any is unreadable |
| UnitEffect.PlanDecides | src/units/plan.rs:145-239 | For each graph unit, tweak and compositor drop-in, in terms of the file there and the manifest only: exactly when it is a conflict, written and with what, reclaimed, or removed; and nothing else is mentioned |
| UnitEffect.PlanExistsIff | src/units/plan.rs:93-143 | There is a plan if and only if no destination holds an unreadable file |
| UnitEffect.OnlyGraphUnitsConflict | src/session/start.rs:87-109 | With reclaiming on, as `start` plans, there is a conflict if and only if a graph unit is neither up to date nor vouched for |
| UnitNames.DestsDistinct | src/units/plan.rs:109-140 | No two destinations of one generation share a path, for any compositor id |
| UnitNames.GraphIsNotRemovable | src/units/plan.rs:297-308 | No graph unit is ever a removable drop-in |
| UnitNames.DestsFitTheManifest | src/units/plan.rs:109-140 | Every destination of a compositor's unit string is a path the manifest can hold on one line |
| UnitEffect.PlanEffect | src/units/plan.rs:93-143 | Applied completely, a conflict-free plan gives every wanted destination its content; an unwanted drop-in disappears exactly if owned |
| UnitEffect.PlanTouchesOnlyItsDestinations | src/units/plan.rs:93-143 | No other path and no other manifest entry changes |
| UnitEffect.SecondPlanIsEmpty | src/units/plan.rs:93-143 | Planning again with the same inputs finds nothing to write, remove, refuse or reclaim |
| UnitEffect.PlanRespectsOwnership | src/units/plan.rs:145-239 | A plan touches a path only if it was absent, verifiably owned, or a drop-in reclaimed on request; only owned drop-ins are removed |
| UnitApply.UnitDir.Rollback | src/units/generate.rs:65-76 | The reverse loop is the undo of the whole log |
| UnitApply.UnitDir.ApplyGenerate | src/units/generate.rs:95-144 | Refused exactly on conflicts; success, failed step and failed save each determine the directory and the manifest on disk; without errors a conflict-free plan succeeds |
| UnitApply.UnitDir.ApplyRemoval | src/units/generate.rs:153-187 | Success removes exactly the planned paths and forgets the skipped ones; a failed step is rolled back with the manifest untouched; without errors it succeeds |
| UnitApply.LogStep | src/units/generate.rs:104-138 | One more write or removal, also of a path seen before, keeps the log a faithful record of the batch |
| UnitApply.UndoIsExactIff | src/units/generate.rs:65-76 | Undoing a batch restores the directory exactly if and only if no touched path was an unreadable file |
| UnitApply.UnreadableFileIsLost | src/units/generate.rs:105-114 | A batch that replaced an unreadable file and was undone leaves no file there |
| UnitApply.RollbackIsExact | src/units/generate.rs:95-187 | A failed batch over readable paths leaves the directory as it was |
| UnitRemoval.PlanRemoveAll | src/units/plan.rs:255-295 | Removes are exactly the selected entries that are gone or owned, skipped ones exactly the rest; it fails exactly on an unreadable one |
| UnitRemoval.RemovalRespectsOwnership | src/units/plan.rs:255-308 | Only selected, owned drop-ins are removed, never a graph unit |
| UnitRemoval.SecondRemovalIsEmpty | src/units/plan.rs:255-295 | After a removal, a second plan with the same marks has nothing to remove or skip |
| UnitRemoval.MarkedIffRemovable | src/units/plan.rs:297-326 | Exactly the removable paths have a mark |
| UnitRemoval.MarkOfDropins | src/units/plan.rs:313-326 | The mark of a compositor's drop-ins is the unit string in their path |
| Marks.IdSelectsItsDropinsIff | src/units/plan.rs:119-126 | Removal by a valid compositor id selects its drop-ins if and only if the id has no dash |
| Marks.DashedIdIsMissed | src/units/plan.rs:313-326 | The valid id `my-wm` does not select its own drop-ins |
| Marks.MarkSelectsIff | src/units/plan.rs:313-326 | A mark selects exactly the two drop-ins with that unit string in their names, and the tweaks if it is `tweaks` |
| Marks.SelectionMeaning | src/units/plan.rs:255-326 | Without marks every tracked tweak and compositor drop-in is selected; a list selects what any of its marks selects |
| Marks.UnitStringSelects | src/units/plan.rs:313-326 | Removal by the unit string of a compositor selects its own drop-ins, none of another compositor, and the tweaks if and only if the unit string is `tweaks` |
| Marks.TweaksIdCollides | src/units/plan.rs:313-326 | `tweaks` is a valid compositor id, and asking for its drop-ins selects every tweak |
| Marks.MarksRoundTrip | src/session/stop.rs:89-101 | Marks listed with commas are read back as that list, and no mark as no filter |
| Marks.MarksMeaning | src/session/stop.rs:89-101 | The marks are the non-blank texts between commas without the blanks around them; if there are none there is no filter |
| UnitRuns.Start | src/session/start.rs:71-122 | Refuses unless no session is active; otherwise the plan, the switches and the reload decide what is returned, up to failing writes; dry runs, conflicts and failed steps leave directory and manifest unchanged, a failed save only the manifest; plan and apply are one step of a history, and after success a new plan is empty |
| UnitRuns.Stop | src/session/stop.rs:103-133 | Nothing is removed when stopping failed or no removal was asked for; otherwise exactly the selected files that are not foreign go, a reload is only asked for after a removal, and without errors only an unreadable file stops it; a failed removal leaves directory and manifest unchanged, and after success nothing selected is tracked |
| UnitRuns.RunKeepsHonest | src/units/generate.rs:95-187 | Over every history, each manifest entry is the fingerprint of something wsmr wrote at that path |
| UnitRuns.RunRespectsOwnership | src/units/generate.rs:95-187 | Over every history with foreign edits, wsmr changes a path only if absent, its own, or a drop-in reclaimed on request; removal changes only its own drop-ins |
| UnitRuns.FailedStepIsUndone | src/units/generate.rs:95-144 | A generation that failed half-way leaves the directory exactly as it was |
| UnitRuns.FailedRemovalIsUndone | src/units/generate.rs:153-187 | A removal that failed half-way leaves the directory exactly as it was |
| Escape.SimpleSystemdEscape | src/units/escape.rs:16-34 | The loop escapes character by character, with the guard for a leading dot |
| Escape.EscapeRoundTrip | src/units/escape.rs:16-38 | Unescaping as systemd.unit(5) describes gives back the UTF-8 bytes of any input |
| Escape.EscapeInjective | src/units/escape.rs:16-38 | Different inputs have different escaped forms |
| Escape.EscapedIsUnitName | src/units/escape.rs:16-38 | The result uses only characters allowed in unit names, and with the guard never starts with a dot |
| Naming.TruncateEscaped | src/app/naming.rs:30-54 | The index loop keeps the longest run of whole tokens that fits |
| Naming.FittingDecodes | src/app/naming.rs:30-54 | A truncated part decodes to a prefix of the bytes, and wastes less than one token |
| Naming.AutoUnitName | src/app/naming.rs:7-26 | The name is put together from the two truncated parts, is ASCII and is at most 255 bytes long |
| Naming.NamePartsDecode | src/app/naming.rs:7-54 | Both parts decode to prefixes of their originals, completely whenever they fit within 127 and 255 bytes, and otherwise as long as whole tokens allow |
| Naming.UnitNameReads | src/app/naming.rs:7-26 | Read back, a service is an instance named by the random part of a template of both parts; a scope has no instance, and anything that is not a scope is named as a service |
| EnvFiles.SerializeEnv | src/env/files.rs:28-49 | The loop joins the bindings with valid names; the newline form ends with a newline |
| EnvFiles.ParseEnvNul | src/env/files.rs:59-72 | The loop keeps the last value of each valid name |
| EnvFiles.NulRoundTrip | src/env/files.rs:28-72 | Parsing the NUL form of any environment with NUL-free values gives its name-filtered form |
| EnvFiles.ParsedMeaning | src/env/files.rs:59-72 | A name is set exactly if it is valid and some chunk binds it in front of its first equals sign, to the value of the last such chunk; all other chunks are ignored |
| EnvFiles.NewlineRoundTrip | src/env/files.rs:28-49 | The newline form, read line by line, gives the name-filtered environment when the values are single lines |
| EnvFiles.ShellDumpRoundTrip | src/env/dump.rs:20-34 | Messages, mark and dump parse back to the messages and the filtered environment if and only if the mark does not occur earlier |
| EnvFiles.WriteCleanupEntries | src/env/files.rs:116-125 | The loop prints one line per entry |
| EnvFiles.CleanupRoundTrip | src/env/files.rs:98-125 | Reading a written cleanup list gives the same entries, in whatever order they were written |
| EnvFiles.ReadLinesMeaning | src/env/files.rs:98-113 | Exactly the well-formed lines of a cleanup list are its entries, whatever else is in the file |
| Shell.LexQuote | src/units/templates.rs:448-459 | A quoted argument is recognised as exactly that argument in any context |
| Shell.ShlexRoundTrip | src/units/templates.rs:440-459 | POSIX word recognition of a joined list yields the list, for all strings |
| Shell.AssignmentRoundTrip | src/session/prepare.rs:188-225 | An assignment of the loader's variables file is one word with the given value |
| Shell.ReplyRoundTrip | src/app/daemon.rs:110-130 | The daemon's reply parses back into the resolved argument vectors in order, if and only if none of several is empty |
| CommandLine.ArgumentsArriveIff | src/units/templates.rs:440-459 | A printed list of one-line arguments is read by systemd as that list if and only if none of them holds an escape, a specifier or a variable in front of what follows it |
| Dropin.DedupPreserving | src/comp.rs:316-319 | The loop keeps first occurrences in order |
| Dropin.DedupOrder | src/comp.rs:316-319 | The result has the same names, each once, and of any two the one that occurs first in the input stands first |
| Dropin.ResolveComp | src/comp.rs:119-168 | Resolution of an executable: an id that is the last component of the path and can be told from its unit string, desktop names that are the first occurrences of those given or else the id, and everything else as given |
| Dropin.ResolveMeaning | src/comp.rs:119-168 | Which command lines are refused, are desktop entries, or have a last component that is no valid id; all others are resolved as stated |
| Dropin.PrintPreloader | src/units/templates.rs:369-406 | The drop-in of the preloader, or none when nothing needs overriding |
| Dropin.PrintService | src/units/templates.rs:408-437 | The drop-in of the main service, or none when nothing needs overriding |
| Dropin.DropinsNeededIff | src/units/templates.rs:369-437 | Exactly when each of the two drop-ins is printed at all |
| Dropin.PreloaderCommand | src/units/templates.rs:369-406 | The words of the preloader's command in each case: exclusive names, other names, none, with or without an absolute executable |
| Dropin.TitleMeaning | src/units/templates.rs:339-352 | The description names the entry or else the binary, with the entry's own description behind a comma |
| DropinStart.DropinIsRead | src/units/templates.rs:343-437 | Read as a unit file, for texts of any kind: the printed command replaces all others if its section header is read as one, and otherwise what the description has set stays |
| DropinStart.OneLineDropin | src/units/templates.rs:343-437 | With a description of one line that does not end in a backslash, a printed drop-in carries the compositor id, the description to show, and exactly one command: the printed one in place of the template's, or the template's |
| DropinStart.SectionStandsIff | src/units/templates.rs:343-367 | With a description of one line, the printed command is in force if and only if the description does not end in a backslash, and the description never brings a command |
| DropinStart.OwnCommandRuns | src/units/templates.rs:343-437 | A command the description brings runs in place of whatever was printed |
| DropinStart.SwallowedOverride | src/units/templates.rs:343-437 | With a description that ends in a backslash the printed command is never in force |
| DropinStart.DescriptionShownIff | src/units/templates.rs:343-352 | systemd shows the printed description as it is if and only if it holds no specifier |
| Dropin.DedupAbsorbs | src/comp.rs:147-162 | Adding the same inherited names in front again and deduplicating changes nothing |
| Dropin.SplitColonJoin | src/main.rs:291-297 | Splitting the joined names gives them back, except for a single empty one |
| Dropin.NamesComeBack | src/main.rs:152-170 | The desktop names printed by `start` come back through `aux`, whether or not the inherited ones are seen again |
| DropinStart.ServiceRoundTripIff | src/units/templates.rs:408-437 | For arguments and descriptions of any text, unless a command of the description's own runs: `aux exec` started from the drop-in gets the same command line if and only if the executable is absolute or has no slash, the printed section header is read as one, and no argument holds a line break or anything systemd rewrites |
| DropinStart.StartedServiceId | src/units/templates.rs:408-437 | While nothing printed means anything to systemd, the id, the unit string and the binary name come back, also for relative paths |
| DropinStart.PreloaderArrivesIff | src/units/templates.rs:369-406 | The arguments printed for the preloader reach it around the id if and only if they and the description mean nothing to systemd |
| DropinStart.PreloaderRoundTrip | src/units/templates.rs:369-406 | Then `aux prepare-env` runs if and only if the printed names do not look like an option, with the same id, unit string and binary name, and the same desktop names under an exact condition |
| DropinCases.RelativePathChanges | src/main.rs:152-170 | The compositor `./sway` comes back as `sway` |
| DropinCases.EscapedArgumentChanges | src/units/templates.rs:440-459 | An argument with a backslash and a t does not come back |
| DropinCases.DescriptionCostsCommand | src/units/templates.rs:343-352 | With the description `x\` the absolute path of the compositor does not come back |
| DropinCases.EmptyNameChanges | src/units/templates.rs:376-388 | Two empty desktop names are one, which does not come back |
| DropinCases.DashedNameIsRefused | src/cli.rs:284-287 | With the desktop name `-x` the preloader does not start |
| DropinCases.DescriptionBringsCommand | src/units/templates.rs:343-367 | A description with line breaks that makes the service of `sway` run `/bin/false` |
| ExecField.ExpandStr | src/app/field.rs:26-50 | The loop unescapes a value; a lone trailing backslash is dropped |
| ExecField.EscapeInText | src/app/field.rs:26-50 | An escape in a text stands for a blank, newline, tab or carriage return by its letter, and any other character for itself |
| ExecField.LoneBackslash | src/app/field.rs:26-50 | A lone backslash at the end is dropped |
| ExecField.ExpandRoundTrip | src/app/field.rs:26-50 | Unescaping undoes the escaping of any text |
| ExecField.TokenizeExec | src/app/field.rs:54-99 | The loop over quotes, escapes and blanks accepts and splits exactly as the state function says |
| ExecField.TrimPadded | src/app/field.rs:54-55 | Trimming takes the whitespace around a text away and nothing else |
| ExecField.SpelledLineIsRead | src/app/field.rs:54-99 | Words with any whitespace between them are read as the arguments they spell, bare, quoted, or bare with a quoted end |
| ExecField.ReservedIsRefused | src/app/field.rs:54-99 | A reserved character outside quotes is refused, whatever follows |
| ExecField.DollarIsRefused | src/app/field.rs:54-99 | A dollar sign or backtick without a backslash inside quotes is refused |
| ExecField.TokenizeRoundTrip | src/app/field.rs:54-99 | A line of double-quoted arguments tokenizes to the arguments, whatever they contain |
| ExecArgs.PercentRoundTrip | src/app/field.rs:140-150 | Decoding a percent-encoded path gives its bytes back |
| ExecFields.UrlMeaning | src/app/field.rs:106-150 | An argument with a scheme is passed on; any other becomes a `file` URL of URL characters only that decodes to its bytes, and unreserved characters stand in it unchanged |
| ExecArgs.CountFields | src/app/field.rs:257-276 | The index loop counts field codes and skips literal percent signs |
| ExecArgs.GenEntryArgs | src/app/field.rs:153-245 | The loop expands the words in order and stops at the first error; the result is one command line or one per argument |
| ExecArgs.MultiIsOnePerArgument | src/app/field.rs:153-245 | A multi-instance result has one command line per argument, in order, each equal to the result for that argument alone |
| ExecArgs.MultiIff | src/app/field.rs:153-245 | With several arguments the result is multi-instance if and only if some word is exactly a single-file or single-URL field |
| ExecFields.FieldInPlace | src/app/field.rs:153-245 | A single file field passes on the argument and a single URL field its URL, in the place of the field, as a word of its own or inside one; with several arguments each instance holds its own argument there, and a field inside a longer word stays literal; without arguments the word goes |
| ExecFields.FieldDecides | src/app/field.rs:163-225 | The letter of the one field of a word decides what the word is: dropped when deprecated, filled, a list, the name, path or icon only as a whole word, refused for an embedded list, and literal otherwise |
| ExecFields.TwoFieldsAreRefused | src/app/field.rs:163-168 | A word with two fields is refused |
| ExecFields.PercentSign | src/app/field.rs:169-170 | A doubled percent sign stands for one |
| ExecFields.PlainLine | src/app/field.rs:153-245 | A line without a file or URL field refuses arguments and is otherwise the expansion of its words |
| ExecArgs.AcceptedIff | src/app/field.rs:153-255 | A line is accepted if and only if it is not empty, each word is acceptable by itself, and it has at most one file or URL field, exactly one when there are arguments, in any order of its words |
| ExecArgs.ListInPlace | src/app/field.rs:153-245 | A list field passes on all the arguments, or for the URL list their URLs, in order and where it stands, between the expansions of the other words |
| ExecArgs.LiteralsAroundList | src/app/field.rs:153-245 | A line whose other words hold no percent sign is always accepted and becomes itself with the arguments in place of the list field |
| Terminal.ParseTerminalList | src/app/terminal.rs:263-297 | The loop folds the lines of one file into the preferences |
| Terminal.ReadTerminalLists | src/app/terminal.rs:231-258 | The files are folded in order |
| Terminal.LineMeaning | src/app/terminal.rs:263-304 | Exactly which lines prefer, exclude or protect which entry, with or without an action; every other line says nothing |
| Terminal.PreferencesMeaning | src/app/terminal.rs:231-297 | Excluded are exactly the ids with an excluding and no protecting line anywhere; preferred are the bare lines in order, each once |
| Terminal.ExclusionIgnoresOrder | src/app/terminal.rs:231-297 | The excluded ids do not depend on the order of the lines |
| Terminal.Scan | src/app/terminal.rs:136-170 | With a sound cache the scan finds what a scan without one finds, and the cache stays sound; a scan that finds nothing knows every listed non-terminal it could read |
| Terminal.PlainScanMeaning | src/app/terminal.rs:136-165 | The scan finds the first listed entry that is not excluded, readable, a terminal and valid, and nothing if and only if there is none |
| Terminal.ScanForTerminal | src/app/terminal.rs:136-170 | Loading, scanning and saving finds the cache-free result and leaves only true entries on disk |
| Terminal.ScanMany | src/app/terminal.rs:136-170 | So does any number of scans with edits in between that give changed contents a new modification time |
| Terminal.SaveNotTerminals | src/app/terminal.rs:206-222 | The loop prints one line per path without a newline |
| Terminal.LoadNotTerminals | src/app/terminal.rs:188-204 | The loop reads well-formed lines and ignores the rest |
| Terminal.LoadedMeaning | src/app/terminal.rs:188-204 | A path is in the cache exactly if some well-formed line records it, with the time of the last one |
| Terminal.CacheRoundTrip | src/app/terminal.rs:188-222 | Saving and loading loses nothing but paths with a newline and invents nothing |

## Left out

- Protocol.ApplyKeepsInv: generation ids are any non-empty strings, not necessarily new ones.
- Protocol.ExportsAreCovered: says nothing about an export that comes after the next restore or begin; `Protocol.NoLateExports` and `Abandoned.LateExportSurvivesIff` are about those.
- Protocol.EndRestoresSession: speaks of a restore that found a snapshot; without one it is `Abandoned.CrashWindowIff`.
- SessionState.StateFiles.BeginGeneration: the three files are kept as values; their text forms are `EnvFiles.NulRoundTrip` and `EnvFiles.CleanupRoundTrip`, and the list is the set they denote. A blank generation file is the empty string.
- Session.PrepareEnv: the login variables, the seat lookup and the shell loader are parameters; binding the session to a process is left out.
- UnitApply.UnitDir.Rollback: the writes of an undo always succeed; the source ignores their errors. Directories, permissions and temporary files do not exist in the model, so removing an empty parent has no effect.
- UnitApply.UnitDir.ApplyGenerate: a failed save of the manifest is not rolled back, as in the source; the outcome is stated.
- UnitRuns.Start: foreign edits happen between runs, not between the plan and its application. Whether a session is active and whether a reload succeeds are parameters, and so is the reclaim switch, which `start` always sets; what follows the generation is left out.
- UnitRuns.Stop: whether stopping the compositor came off, and whether a reload of the manager does, are parameters.
- UnitRuns.RunRespectsOwnership: the manifest on disk changes only by saving; its text form is `Ownership.ManifestRoundTrip`.
- UnitPlan.PlanGenerate: the rendered unit texts and tweaks are inputs; substituting the binary path into the templates is left out.
- CommandLine.ArgumentsArriveIff: specifiers and variables stand for text without percent signs, dollar signs and line breaks, and without backslashes unless the arguments have none; the escaped specifiers of an id with a dash have backslashes. That the arguments arrive when nothing means anything to systemd needs none of this. A surrogate or a byte above 127 written as an escape is read as one character.
- DropinStart.ServiceRoundTripIff: the same on specifiers and variables; the path of wsmr itself has no special characters. Blanks around a setting are not trimmed and prefixes of the executable are not modelled, which an absolute path of wsmr does not have. When a command of the description's own runs, the outcome is `DropinStart.OwnCommandRuns`.
- DropinStart.PreloaderRoundTrip: desktop names contain no colon and the given list is not a single empty name, both of which splitting the option at colons ensures; the command line parser is modelled for the option forms the drop-ins print, with a value that looks like an option refused.
- DropinStart.PreloaderArrivesIff: the same on specifiers, variables and the path of wsmr, and on commands the description brings.
- DropinStart.OneLineDropin: the description is the text before specifiers; `DropinStart.DescriptionShownIff` is about them.
- Dropin.ResolveComp: a desktop entry as compositor is recognised but not resolved.
- Shell.ShlexRoundTrip: reserved words and assignments in command position are not distinguished from other words.
- Terminal.Scan: the list of entries and the validity checks of an entry are inputs.
- Terminal.ScanMany: a path's content is determined by its modification time, which is the assumption of the cache itself.
- Naming.AutoUnitName: the random part is a parameter.
- D-Bus proxies, logind, notifications, the job engine of systemd, FIFO and signal handling, waiting and polling: foreign calls.
- The desktop-entry finder, XDG path lookup, locale variants and the checks before a start: mostly finite case analysis.
- The scripts in `libexec/` and the sweep of stray loader files.
- `save_session_conf`.
