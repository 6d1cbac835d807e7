# Verified model of the factor library

This project models the control logic of `ops`, the command-line tool that runs a library of trading factors, and
proves properties of it. A factor is a directory with one Python file and one XML. It is submitted to staging, checked
in six stages, archived in `alpha_src` or rejected, and may be approved, restaged, cancelled or removed. ACTIVE factors
are produced in groups or singly. PostgreSQL holds the rows and an append-only log.

`dafny verify dfyconfig.toml` checks everything. Induction is always written out: lemmas that Dafny would try by induction of its own
carry `{:induction false}`.

## What is modelled

**Life of a factor.** `Factor.dfy` has the log and what a log says: presence, status, version, entered. `Commands.dfy`
is a step machine: each command - submit, check, approve, restage, cancel, rm, clear - is a sequence of single
transactions and file operations, and a choice per step says what the outside world does (a stage's outcome, an operation
that raises, a removal that gets only part of the way). `Library.dfy` puts any number of processes around it, with the
lock per factor, the unlocked scan of check, the unlocked rollback of a failed submit, and the death of a process at any
step. `ReplayProof.dfy`, `DiskProof.dfy` and `SourceProof.dfy` prove what each step keeps; `LibraryTheorems.dfy` has the
statements over all runs, `Tenures.dfy` says exactly when a source survives a command, and `Witnesses.dfy` has concrete
runs that show which conditions are needed.
`Repository.dfy`, `CheckService.dfy` and `Services.dfy` are the same commands as the imperative code they are: a class
whose maps and sets the methods update. Every command's method is proved against the step machine (`Solo.Finishes`);
`Alone.dfy` proves that what the machine does alone it does in the world while the other processes wait, and
`Refinement.dfy` puts the two together: executing any command on the object is a run of the world.

**Grouped production.** `Groups.dfy` gives one pass of `sync_groups` in closed form, `GroupTheorems.dfy` its properties.
`GroupService.dfy` is the class with the loops, proved to compute the closed form. `Partition.dfy` and `GroupXml.dfy` are
the partition, group numbers and the merge of a group's XML. `Bootstrap.dfy` is the bootstrap script from the list of
names to the sealed groups, and `GroupRuns.dfy` the invariants over all runs of sync, pre-check, admission, bootstrap and
damage from outside.

**Listing.** `GlobLike.dfy` is the translation of a glob to a LIKE pattern (section 8.5 of ISO/IEC 9075:1992, with
PostgreSQL's backslash as default escape). `Listing.dfy` has the in-memory filter, the WHERE clause with NULL as a third
truth value, and the theorem that pushing conditions to SQL never changes the answer. `Ordering.dfy` is the stable sort.

**XML of production.** `Rewrite.dfy` is `str.replace` and when it leaves nothing to replace; `ProdRules.dfy` the rewrite
tables; `ProdXml.dfy` the tree; `ProdValues.dfy` what is written, key by key; `ProdTwice.dfy` what a second run does; `ProdFrame.dfy`
what a run leaves alone.

**Numeric and array loops.** `Bcorr.dfy` is the correlation over reals, `Pack.dfy` the matrix packing on two-dimensional
arrays, `Compliance.dfy` the one-pass compliance counters and the array expression of the survey script.

**Two small cores.** `Doctor.dfy` is the deletion gate, `EnvFile.dfy` the env-file parser and renderer.

## What the proofs found

Where a promise of the repository does not hold of its code, the code is modelled as it is, a concrete run or input shows
the failure, and the exact condition is proved.

- *Status is the fold of the log* (lock free, nobody died): exactly when no exception came out of the reject arm of the
  factor's last check. The arms of `_run_one_locked` are `except` clauses of one `try`, so an exception inside the
  `CheckFail` arm (check.py:385-436) is not caught by the last arm; the row stays at CHECKING
  (`StatusIsFoldOfLog`, `AbandonedCheckIsStuck`).
- *A check that listed staging before another process archived the factor* gets the lock, moves an ACTIVE factor to
  CHECKING without `expect` (check.py:304), fails its first stage and puts it back to SUBMITTED. That keeps the library in
  order exactly when the factor had no snapshot, pnl or pool copy (`StaleCheckExactly`, `StaleCheckDemotes`).
- *A check keeps a complete copy of its source* exactly when the staging directory is not an incomplete one
  (`CheckConservesExactly`).
- *submit's exception handler removes staging after the lock is released* (submit.py:226-230), so it can take the
  directory another command works on (`LateRollbackLosesSource`). While such a rollback is pending, check keeps its source
  exactly when it found no staging directory, approve exactly when `alpha_src` has the source too, and restage exactly when
  the row is not one to restage or the pending rollbacks do not suffice to clear staging and then take the recalled
  directory (`CheckTenureExactly`, `ApproveTenureExactly`, `RestageTenureExactly`).
- *Rosters stay disjoint* after a bootstrap exactly when, of one author's groups that are built, no later one begins with
  the name that an earlier one ends with (`BootstrapExactly`). Names repeated across a cut of the sorted list are the only
  way to that (`BootstrapByCuts`), so a `--factor` list without repetitions is always safe (`DistinctListIsSafe`), and
  a name given twice with groups of one breaks it (`DuplicateNameBreaksDisjointness`). A name repeated inside one group violates the primary key of
  the roster table (pg_store.py:25), and that group is not built; `RepeatInsideBuildsNothing` is a list with a repetition
  across a cut that does no harm for this reason.
- *productionize is idempotent* under more conditions than its comment says. A second pass changes a `@niodatapath` in
  Universe exactly when it started with `/cache/data/cc_2025` or `/cache/home/fguo/data_local`
  (`UniverseExactly`), elsewhere exactly when it started with `/cache/home/fguo/data_local` (`ElsewhereExactly`), and a Data
  id exactly when it ends in `ModMod` (`IdExactly`). That is under two conditions, both of which are needed
  (`PrefixExactly`, `ConditionsExactly`): the datasvc prefix must not be empty or contain `/home/fguo/data_local`, and
  with `/datasvc` appended it must begin with neither `/datasvc` nor `/cache/data`, as it does for `/cache`
  (`PrefixCacheFails`); and the factor's name must contain neither `StatsSimpleV5` nor `StatsSimpleV6`, because the upgrade
  of module names then changes which node is taken for the factor's own. Under them a document settles after one run
  exactly when its paths and ids do (`ProductionizeExactly`).
- *The packing check accepts a sample* exactly when no picked dump holds an infinity (`PackAndVerify`).
- *sync* reaches its end exactly when every factor it has to freeze has an XML (`ProductionLine.Sync`).

## Model

| member | source | states |
|---|---|---|
| Factor.StageViews | ops/services/check/stages.py:52-65 | The retryable and keep-artifacts sets are the columns of the stage table, and stage names are unique. |
| CheckService.StageAt | ops/services/check/stages.py:52-65 | The six stages in order; the first four prepare, validate and long_backtest are retryable, the last two keep artifacts. |
| Factor.ReplayMeaning | ops/infra/store/pg_store.py:180-253 | In a log's replay, version is one more than the overwrites since the last submit, entered means an `entered` row follows it, and the status is never CHECKING. |
| Factor.LastFailIsLatest | ops/infra/store/pg_store.py:255-264 | On a log in time order, reading backwards finds the failed check that `ORDER BY at DESC, id DESC LIMIT 1` returns, and finds none exactly when there is none. |
| Factor.DigestMeaning | ops/infra/store/pg_store.py:255-272 | The summary carried along in the proofs is the log's replay, last row, latest check time and last failure, and it records whether the log is in time order and grammatical. |
| ReplayProof.StepSound | ops/services/check/check.py:298-451 | Whatever the world decides, every single step of every command keeps row and log in step, and the status when it was in step before. |
| DiskProof.StepOrderly | ops/infra/repository.py:478-605 | Every step in which no file operation raises keeps files, snapshot and status in the order each control point expects. |
| Library.NextLocked | ops/infra/lock.py:111-134 | Every step of every process keeps the lock table exact: one process inside per held lock, released at each exit and at death. |
| Library.RunInv | ops/infra/lock.py:111-134 | Every reachable state of every interleaving satisfies the invariant that the theorems below read off. |
| LibraryTheorems.MutualExclusion | ops/infra/lock.py:111-134 | Two different processes are never inside commands on one factor. |
| LibraryTheorems.AcquireExactly | ops/services/check/check.py:74-115 | A process takes a lock exactly when it is not busy and nobody holds it, and a check only of a factor it listed in staging; taking it changes no row, log or file. |
| LibraryTheorems.RowIsFoldOfLog | ops/infra/store/pg_store.py:180-253 | In every reachable state, also in the middle of commands and after deaths, presence, version and entered_at are what the log says. |
| LibraryTheorems.StatusIsFoldOfLog | ops/services/check/check.py:385-451 | With the lock free and nobody dead, the status is the log's exactly when the last check was not abandoned by an exception in its reject arm; otherwise, and only then, it is CHECKING. |
| LibraryTheorems.LogIsGrammatical | ops/infra/store/pg_store.py:180-253 | Rows are in time order; approve follows only a correlation rejection, entered only a passed check or approve, restage only ACTIVE or REJECTED, submit only absence; cancel never follows entry. |
| LibraryTheorems.CancelSparesEntered | ops/services/cancel/cancel.py:34-47 | cancel is never past its guard on a factor that entered since its last submit, on any run at all. |
| LibraryTheorems.FilesMatchStatus | ops/infra/repository.py:478-605 | Within the two boundaries and with the lock free: pool copy implies ACTIVE, one pool at most, ACTIVE and REJECTED have whole source in alpha_src and none in staging, ACTIVE has entered_at, SUBMITTED has no snapshot, pnl or pool copy. |
| LibraryTheorems.SnapshotIsOfLatestCheck | ops/infra/repository.py:423-449 | Within the boundaries and with the lock free, a snapshot carries the time of the latest check row. |
| LibraryTheorems.PoolCopyExactly | ops/infra/repository.py:514-524 | The step of a run that ends an archive puts the name in the automated pool exactly for an automated source and in the manual pool exactly for a manual one, and changes nothing else but the lock. |
| LibraryTheorems.PoolComesFromKind | ops/infra/repository.py:514-524 | In every reachable state a name in a pool was copied there by an archive of that name whose source had that kind, and has been there ever since. |
| LibraryTheorems.LateExactly | ops/services/submit/submit.py:213-230 | A process owes a rollback after its lock exactly when its submit raised at parsing, in the transaction of a new or overwritten factor, or in the purge. |
| LibraryTheorems.PartwayExactly | ops/infra/repository.py:478-605 | What an operation on several files leaves when it gets only part of the way, and that the command stays there. |
| LibraryTheorems.NoCheckAbandonedWithinBounds | ops/services/check/check.py:385-451 | Within the boundaries the status is always the fold of the log. |
| Tenures.TenureExactly | ops/services/submit/submit.py:213-230 | At any control point of check, restage and approve with the guarded copy and no second one in alpha_src, every continuation until the lock is let go keeps the source exactly when no failed submit has yet to roll back. |
| Tenures.CheckTenureExactly | ops/services/check/check.py:298-451 | From taking the lock for a check of a complete source until letting go, at every step of all processes, a complete copy is in staging or alpha_src exactly when no failed submit is pending or there was no staging directory. |
| Tenures.RestageTenureExactly | ops/services/restage/restage.py:95-135 | The same for restage, exactly when the row is not ACTIVE or REJECTED or fewer submits are pending than it takes to clear staging and remove what was recalled. |
| Tenures.ApproveTenureExactly | ops/services/approve/approve.py:79-134 | The same for approve, exactly when no failed submit is pending or alpha_src has the source. |
| LibraryTheorems.StaleCheckExactly | ops/services/check/check.py:298-312 | A check without its staging directory leaves a factor at rest well kept exactly when it had no snapshot, pnl or pool copy. |
| SourceProof.TenureGuards | ops/services/restage/restage.py:95-135 | The copy guarded at each control point of check, restage and approve stays guarded through any interleaving during the tenure. |
| SourceProof.CheckConservesExactly | ops/services/check/check.py:298-451 | A check keeps the source it puts at stake for every behaviour of the world exactly when staging is not an incomplete directory. |
| Witnesses.AbandonedCheckIsStuck | ops/services/check/check.py:402-436 | A run in which on_reject raises: lock free, nobody dead, row CHECKING, log SUBMITTED. |
| Witnesses.StaleCheckDemotes | ops/services/check/check.py:74-115 | A run of two checks in which nothing raises and an ACTIVE factor ends SUBMITTED with snapshot and pool copy. |
| Witnesses.LateRollbackLosesSource | ops/services/submit/submit.py:213-230 | A run in which submit's late rollback removes the directory a check works on. |
| Alone.AloneInWorld | ops/services/_batch.py:59-86 | Any command, approve with its real last failure included, that the step machine finishes alone does the same in the world of processes while the others wait, whatever happened to the factor before. |
| Refinement.Perform | ops/services/_batch.py:59-86 | Executing any command on the repository object, whatever the outside decides, is a run of the world that ends with the object's rows, files and log. |
| Refinement.ObjectRowIsFoldOfLog | ops/infra/store/pg_store.py:180-253 | So after any commands on the object its rows agree with its log. |
| Repository.FactorRepository.Register | ops/infra/repository.py:365-410 | New row, SUBMITTED at version 1 and of this moment, and one log row together; other factors untouched. |
| Repository.FactorRepository.Transition | ops/infra/store/pg_store.py:180-215 | Compare-and-set of the row with its log rows, `entered` following ACTIVE; on a missing row or a status conflict neither row nor log changes. |
| Repository.FactorRepository.AppendCheck | ops/infra/store/pg_store.py:217-240 | One check row, or FactorNotFound and no change; rows never change. |
| Repository.FactorRepository.Delete | ops/infra/repository.py:451-468 | Row and snapshot go together; the log keeps a row exactly when there was one to delete. |
| Repository.FactorRepository.ReadLastFail | ops/infra/store/pg_store.py:255-264 | The latest failed check of this factor in the shared log. |
| Repository.FactorRepository.AttachSnapshot | ops/infra/repository.py:423-442 | The measurement replaces an earlier one. |
| Repository.FactorRepository.DiscardSnapshot | ops/infra/repository.py:444-449 | The snapshot row goes and nothing else does. |
| Repository.FactorRepository.Archive | ops/infra/repository.py:478-524 | Source moved to alpha_src, dump and pnl in place; the automated pool gains the name exactly for an automated source, the manual one exactly for a manual source; other factors untouched. |
| Repository.FactorRepository.Recall | ops/infra/repository.py:550-565 | Moves the source back, or refuses and changes nothing, with the error the code raises. |
| Repository.FactorRepository.Unstage | ops/infra/repository.py:567-574 | The staging directory goes; the result says whether there was one. |
| Repository.FactorRepository.PurgeArtifacts | ops/infra/repository.py:576-605 | Exactly the artifacts of the scopes asked for. |
| Repository.FactorRepository.OnReject | ops/services/check/check.py:184-220 | Source to alpha_src; artifacts kept or cleared by the stage's table column; staging gone. |
| CheckService.Claim | ops/services/check/check.py:222-258 | The row, recreated when missing, at CHECKING; an unidentified factor is refused before any write. |
| CheckService.RunStages | ops/services/check/check.py:328-342 | Stops at the first stage that does not pass, in table order, where the step machine stops. |
| CheckService.PassArm | ops/services/check/check.py:344-364 | Check row, ACTIVE with entered_at and snapshot of one time, then the archive; it is the machine's path. |
| CheckService.RevertArm | ops/services/check/check.py:366-401 | Skip, retryable and unexpected outcomes: the check row and SUBMITTED, files untouched. |
| CheckService.RejectArm | ops/services/check/check.py:402-436 | Snapshot when measured, on_reject, the check row with its stage, REJECTED. |
| CheckService.RunPipeline | ops/services/check/check.py:328-451 | From the stages' outcomes, the arm taken and the whole resulting factor; without a staging directory the first stage's prepare decides. |
| CheckService.VerdictMeans | ops/services/check/check.py:298-451 | Every outcome field by field: back to SUBMITTED with all files when staging is missing or the first stage that does not pass is skipped, raises, or is validate or long_backtest failing; REJECTED at any other failure, keeping pnl and dump only from compliance on; ACTIVE with its pool copy when all six pass. |
| CheckService.RunOneLocked | ops/services/check/check.py:298-451 | The whole command is a run of the step machine; verdict, row, files and log are those of VerdictMeans, and a pool gains the name exactly on a pass with a source of its kind. |
| Services.WriteSubmission | ops/services/submit/submit.py:118-163 | New factor, overwrite, or skip with staging removed: row, snapshot, purge and log row of each. |
| Services.SubmitOne | ops/services/submit/submit.py:208-222 | One turn of the submit loop is a run of the machine, and leaves, field by field, a new row at version 1, the old one a version up without snapshot, pnl and pool copies, or no staging. |
| Services.RestageOne | ops/services/restage/restage.py:95-179 | Recalled exactly when ACTIVE or REJECTED with a sound source and free staging; then SUBMITTED without snapshot, pnl and pool copies, and without dump and feature when it was rejected or on request; else unchanged. |
| Services.ApproveOne | ops/services/approve/approve.py:79-134 | ACTIVE exactly when REJECTED and the last row of the log that says a check of it failed failed at correlation; an earlier entered_at stays; approve and entered rows; no file changes. |
| Services.CancelOne | ops/services/cancel/cancel.py:28-47 | Staging and row deleted, with a log row, exactly when SUBMITTED, or CHECKING with force, never entered and without archived source; else nothing changes. |
| Services.RmOne | ops/services/rm/rm.py:56-85 | Nothing of the factor is left but its log. |
| Services.ClearOne | ops/services/clear/clear.py:119-127 | Removes staging exactly when it has no record at the time the lock is held. |
| Groups.DriftIsDifference | ops/services/produce/groups.py:71-81 | Comparing names and then contents finds a drift exactly when the live .py files are not the frozen ones. |
| Groups.SyncKeepsOrder | ops/services/produce/groups.py:141-207 | A pass moves no leg and no ordinal, and neither heals nor corrupts a group. |
| Groups.SyncKeepsValid | ops/infra/groups/pg_store.py:103-110 | Rosters stay disjoint and free of repetition. |
| GroupTheorems.SyncMutes | ops/services/produce/groups.py:166-191 | In a healthy group the muted set becomes exactly the factors not active or drifted. |
| GroupTheorems.SyncRow | ops/services/produce/groups.py:150-191 | Row by row and leg by leg: muted unless the factor is active and its frozen copy is the live code; a leg is rewritten only when its row's flag changes; an unhealthy group stays. |
| GroupTheorems.SyncSingles | ops/services/produce/groups.py:193-203 | After a pass every registered single is active and its frozen code is the live code. |
| GroupTheorems.SyncSinglesExactly | ops/services/produce/groups.py:172-203 | Who is a single afterwards, with which code and which checkpoint: the active ones that do not return to a group, and those whose copy in a group is out of date; only a single out of date loses its checkpoint. |
| GroupTheorems.CompletesExactly | ops/services/produce/groups.py:100-125 | A pass completes exactly when all that it has to freeze is there with an XML. |
| GroupTheorems.PendingExactly | ops/services/produce/groups.py:205-207 | Pending is active, no single and in no roster. |
| GroupTheorems.AdmitExactly | ops/services/produce/groups.py:100-125 | Admission makes the factor a single with the live code and changes nothing else. |
| GroupTheorems.PrecheckExactly | ops/services/produce/groups.py:319-343 | A leg of a healthy group dumps afterwards exactly when it did and is not broken; a row is muted exactly when it was, or its leg dumped and is broken. |
| GroupTheorems.SyncOneHome | ops/services/produce/groups.py:172-181 | A pass keeps every factor from being both unmuted in a group and a single. |
| GroupTheorems.SyncFlagsAgree | ops/services/produce/groups.py:182-189 | A pass keeps the dump flags in group.xml the negation of the muted flags in the table. |
| GroupTheorems.SyncIdempotent | ops/services/produce/groups.py:141-207 | A second pass over the same ACTIVE set and sources changes nothing. |
| GroupTheorems.SyncPartitionsActive | ops/services/produce/groups.py:205-207 | With no group skipped, the ACTIVE set is the disjoint union of unmuted legs, singles and pending. |
| GroupTheorems.CopiesAreLive | scripts/bootstrap_groups.py:153-158 | A sealed group's copies are the live code and no other copy changes. |
| GroupTheorems.SealExactly | scripts/bootstrap_groups.py:148-165 | What sealing writes: roster and legs in the order of the members, unmuted and dumping, the group's number, and the members no singles any more. |
| GroupTheorems.WreckedExactly | scripts/bootstrap_groups.py:148-169 | When the roster's primary key refuses a group, its copies and group.xml stay behind and no roster, number or single changes. |
| GroupTheorems.SealSane | scripts/bootstrap_groups.py:148-165 | Sealing distinct factors of no group under an unused number keeps rosters disjoint, one home and flags; the new group is not taken for a corrupted one. |
| GroupRuns.RunSane | ops/services/produce/groups.py:141-346 | Over every run of sync, pre-check, admission, whole bootstraps and outside damage: disjoint rosters, one home, flags. |
| GroupRuns.SyncStep | ops/services/produce/groups.py:150-191 | After any run, a pass leaves each row of an undamaged group muted exactly when its factor is not active or its copy is not the live code, and no row of a damaged one changed. |
| GroupRuns.PrecheckStep | ops/services/produce/groups.py:319-343 | After any run, a pre-check leaves no leg of a healthy group that dumps and is broken, keeps every leg and row that is not broken, and mutes exactly those that dumped broken. |
| GroupRuns.RunKeepsOrder | ops/core/prodgroup.py:261-274 | Over every run, once a group exists its roster order and ordinals never change, nor the order of the legs in its group.xml while nobody damages that file. |
| Bootstrap.MakePool | scripts/bootstrap_groups.py:77-94 | The loops over records or named factors give the pool that PoolIs describes. |
| Bootstrap.PoolIs | scripts/bootstrap_groups.py:77-94 | Whatever is in the pool is a record of a delay-1 factor that no group has. |
| Bootstrap.WholePool | scripts/bootstrap_groups.py:74-79 | Without `--factor` the pool holds every delay-1 record whose factor is in no group, as often as it is listed, and no other. |
| Bootstrap.NamedPool | scripts/bootstrap_groups.py:80-92 | With it, the record of every name given, as often as it is given, unless it is in a group or has no delay 1. |
| Bootstrap.MakePlan | scripts/bootstrap_groups.py:105-130 | Groups with a missing or conflicting XML are put off, the others get the least numbers that neither the table nor the plan has. |
| Bootstrap.PlanExactly | scripts/bootstrap_groups.py:105-130 | One more group is planned exactly when all its members have an XML and the XMLs merge, under the least number that neither the table nor the plan has. |
| Bootstrap.PlanFresh | scripts/bootstrap_groups.py:105-130 | The plan's numbers are unused and differ. |
| Bootstrap.BuildAll | scripts/bootstrap_groups.py:148-169 | The build loop seals the planned groups one after another, not stopped by one that fails, and counts those that repeat a name as failed. |
| Bootstrap.BuildGroups | scripts/bootstrap_groups.py:148-169 | Afterwards the old groups are as they were and the new ones are exactly the planned ones without a repeated name, in the plan's order. |
| Bootstrap.Bootstrap | scripts/bootstrap_groups.py:70-169 | The script reaches the line that the theorems below are about, for every group size; size zero raises when there is somebody to place, a negative one does nothing. |
| Bootstrap.BootstrapExactly | scripts/bootstrap_groups.py:70-169 | On a line in order, rosters are disjoint afterwards exactly when no built group of an author begins with the name an earlier one ends with; then all invariants hold. |
| Bootstrap.BootstrapByCuts | scripts/bootstrap_groups.py:80-94 | If at every cut of every author's sorted names the names before and after differ, all invariants hold; when all groups are built, rosters are disjoint only then. |
| Bootstrap.DistinctListIsSafe | scripts/bootstrap_groups.py:77-94 | Without `--factor`, or with a list that names nobody twice, every bootstrap of a line in order keeps all invariants, for every positive size. |
| Bootstrap.DuplicateNameBreaksDisjointness | scripts/bootstrap_groups.py:80-94 | One factor named twice with groups of one ends in two rosters, through pool, partition and numbering. |
| Bootstrap.RepeatInsideBuildsNothing | ops/infra/groups/pg_store.py:20-27 | Named three times with groups of two, the cut is between equal names and yet rosters are disjoint, because the first group violates the primary key. |
| GroupService.ProductionLine.AdmitSingle | ops/services/produce/groups.py:100-125 | Registers with the live code, or stops before any change when there is no XML. |
| GroupService.ProductionLine.RefreshSingle | ops/services/produce/groups.py:128-134 | The checkpoint is gone whether or not the admission then succeeds. |
| GroupService.ProductionLine.SetMuted | ops/infra/groups/pg_store.py:96-101 | Exactly the named rows of one group change, each in place. |
| GroupService.ProductionLine.MuteLegs | ops/core/prodgroup.py:267-274 | Flips exactly the named legs, keeps the order, returns those it flipped. |
| GroupService.ProductionLine.SyncGroup | ops/services/produce/groups.py:150-191 | One group's reconciliation is the closed form's, or skips a corrupted group and changes nothing. |
| GroupService.ProductionLine.SyncAllGroups | ops/services/produce/groups.py:150-191 | The loop over groups, although each sees what earlier ones did, reaches the closed form; corrupted groups are reported in gid order. |
| GroupService.ProductionLine.ConvergeSingles | ops/services/produce/groups.py:193-203 | The loop over singles drops the inactive, refreezes exactly the drifted and clears exactly their checkpoints. |
| GroupService.ProductionLine.Sync | ops/services/produce/groups.py:141-207 | Ends exactly when everything to be frozen has an XML; then state, corrupted list and pending set are those of the closed form. |
| GroupService.ProductionLine.PrecheckGroup | ops/services/produce/groups.py:319-343 | Afterwards no leg dumps that is broken; legs that are not broken keep their dump flag and their row; a row is muted exactly when it was, or its leg dumped and is broken. |
| GroupService.ProductionLine.SealGroup | scripts/bootstrap_groups.py:148-165 | The build loop's body reaches the sealed line; a repeated name violates the roster's primary key and leaves copies and XML but neither group nor roster. |
| Partition.Partition | ops/core/prodgroup.py:107-122 | The loop over records and the slicing give the partition that the lemmas below describe, for every size; zero raises when there is an author, a negative size gives no groups. |
| Partition.PartitionCovers | ops/core/prodgroup.py:107-122 | Per author, the groups' members one after another are the sorted eligible names, each once; groups hold one author and 1 to size members. |
| Partition.OnlyDelayOne | ops/core/prodgroup.py:107-122 | An author's groups hold the names of that author's delay-1 records, each as often as it is given; delay 0 and no delay are left out. |
| Partition.AuthorsInOrder | ops/core/prodgroup.py:107-122 | Groups come in the order of their authors' names. |
| Partition.PartitionIsDeterministic | ops/core/prodgroup.py:107-122 | Any permutation of the records gives the same groups. |
| Partition.GidInjective | ops/core/prodgroup.py:125-131 | Zero-padded names of different numbers differ, also beyond 999. |
| Partition.GidText | ops/core/prodgroup.py:125-131 | A group's name is g and its number in decimal, padded with zeros to three digits. |
| Ordering.LessExactly | ops/core/prodgroup.py:107-122 | Names are compared by the first character in which they differ, a prefix first. |
| Ordering.SortStable | ops/core/prodgroup.py:152-226 | Elements with equal keys keep their order in a sort. |
| Partition.NextGid | ops/core/prodgroup.py:125-131 | Returns the least unused number; the search ends by pigeonhole. |
| GroupXml.BuildGroupXml | ops/core/prodgroup.py:152-226 | A conflict is reported exactly when the list is empty, universes differ, Data of one id differ, or a leg has no Alpha; a merge has each declaration once. |
| GroupXml.PatchedDiffersInTwoAttributes | ops/core/prodgroup.py:152-226 | A leg differs from its source in the two dump attributes only. |
| GroupXml.FrozenModule | ops/core/prodgroup.py:144-149 | A module that is a Python file points to the frozen copy under its own file name; other modules stay. |
| GroupXml.ModsOfLeg | ops/core/prodgroup.py:152-226 | The group's modules are the factors' modules, factor by factor, each frozen for its factor. |
| GroupXml.DataInOrder | ops/core/prodgroup.py:152-226 | The group's Data declarations are exactly those that are the first with their id, in order of declaration. |
| GroupXml.MergedValues | ops/core/prodgroup.py:152-226 | Constants, Stats, Universe and the rest are the first factor's but for checkpointDir, pnlDir and dumpPnl. |
| GroupXml.MergedLegs | ops/core/prodgroup.py:152-226 | The legs are the factors' Portfolio/Alpha elements, one for each, dumping to the group's place, in order of the factors' names. |
| GroupXml.FreshGroupIsHealthy | ops/core/prodgroup.py:261-265 | When ids equal names, the legs of a merged group are the sorted roster. |
| GlobLike.FiveReplacesAreOneMap | ops/infra/snapshot/pg_store.py:59-74 | The five replaces in a row are one map of characters. |
| GlobLike.NeverDangling | ops/infra/snapshot/pg_store.py:59-74 | No translated pattern ends in an escape without its character. |
| GlobLike.GlobToLikePreserves | ops/infra/snapshot/pg_store.py:59-74 | For every translated glob and every string, LIKE accepts exactly what fnmatch accepts. |
| GlobLike.FnmatchMeans | ops/infra/snapshot/pg_store.py:59-74 | In a glob * stands for any run of characters, ? for one, anything else for itself. |
| GlobLike.LikeMeans | ops/infra/snapshot/pg_store.py:59-74 | In a pattern % stands for any run, _ for one character, an escaped character and any other for itself. |
| Listing.ApplyFilters | ops/services/list/list.py:60-83 | Fails exactly when some metric threshold is no number; else keeps, in order and as often as it occurs, every row that each condition keeps alone; the next rows say which those are. |
| Listing.FiniteThreshold | ops/services/list/list.py:60-83 | With value v and threshold t a row survives >, >=, <, <=, = exactly when v > t, v >= t, v < t, v <= t, v == t, and != always. |
| Listing.MagnitudeThreshold | ops/services/list/list.py:60-83 | bcorr compares the magnitude of max_bcorr. |
| Listing.ThresholdsCombine | ops/services/list/list.py:60-83 | For all values and thresholds a row survives >= exactly when it survives > or =, <= exactly when < or =, and never both > and <. |
| Listing.NothingCompares | ops/services/list/list.py:60-83 | Without snapshot, with NULL, with NaN on either side, or with a text that is no number, a row survives no condition but !=. |
| Listing.InfiniteValue | ops/services/list/list.py:60-83 | An infinite value or threshold is beyond every number and equal to itself alone. |
| Listing.TextConditions | ops/services/list/list.py:60-83 | field= keeps a row exactly when its snapshot has that field, tables= exactly when the glob accepts one of its tables. |
| Listing.KeptByAll | ops/services/list/list.py:60-83 | Several conditions keep a row exactly when each of them keeps it alone. |
| Listing.SnapshotWhere | ops/infra/snapshot/pg_store.py:77-114 | Every clause comes from a pushed condition and every pushable condition has its clause; != and globs with a class have none. |
| Listing.SqlCompares | ops/infra/snapshot/pg_store.py:77-114 | The pushed comparison is that of reals on numbers, unknown for NULL, and puts NaN above everything and equal to itself. |
| Listing.MetricPushdown | ops/services/list/list.py:95-104 | Pushes every metric condition but !=, and nothing else; fails exactly when one of those has no number. |
| Listing.PushdownIsWider | ops/infra/snapshot/pg_store.py:77-114 | A row that passes the filter in memory is selected by SQL, with NULL as not selected and NaN ordered as each side does. |
| Listing.PushdownNeverChangesTheAnswer | ops/services/list/list.py:106-155 | With and without pushdown, in whatever order SQL returns rows: the same sequence or the same failure, for every filter list, status, sort and limit. |
| Listing.OrderOfRowsDoesNotMatter | ops/services/list/list.py:131-155 | Without filters too, the order of SQL's rows does not matter. |
| Listing.ListFactors | ops/services/list/list.py:131-155 | Sort, status, filters, final sort and slice, in that order; fails exactly when a metric threshold is no number. |
| Listing.LimitIsPrefix | ops/services/list/list.py:131-155 | Under -n k the answer is the first min(k, total) rows of the answer without it, and a negative k drops that many from the end. |
| Listing.ListWithPushdown | ops/services/list/list.py:106-155 | The whole command, whatever find returns within its contract, answers as it would over all rows. |
| Rewrite.ReplaceLeavesNone | ops/core/prodxml.py:161-170 | When new text can neither contain nor complete old text, a replace leaves no old text. |
| ProdRules.LegacyLoop | ops/core/prodxml.py:161-182 | The loop takes a @niodatapath through both prefixes and then the old home, a @dataPath through the old home, and leaves all other attributes. |
| ProdRules.LegacyIsTable | ops/core/prodxml.py:161-170 | The four rules compose in table order, each on what the earlier ones left, to that. |
| ProdRules.UniverseExactly | ops/core/prodxml.py:161-202 | In Universe a second pass keeps a @niodatapath exactly when it began with neither of two cache paths. |
| ProdRules.ElsewhereExactly | ops/core/prodxml.py:161-202 | Elsewhere, with a proper prefix, exactly when it did not begin with one of them. |
| ProdRules.OthersTwice | ops/core/prodxml.py:171-202 | All other attributes are stable after one pass. |
| ProdRules.PrefixExactly | ops/core/prodxml.py:171-202 | Every attribute outside Universe, but a @niodatapath under the old home in the cache, settles after one pass exactly when the prefix is proper. |
| ProdXml.AlphaModuleNode | ops/core/prodxml.py:119-134 | The node that carries the factor's code, or none without modules. |
| ProdXml.ReplaceIsOneWalk | ops/core/prodxml.py:171-202 | The three walks over the tree, with Universe exempt from the second, are one walk attribute by attribute. |
| ProdXml.ApplyStrip | ops/core/prodxml.py:204-213 | The loop over Data nodes strips exactly their ids. |
| ProdXml.Productionize | ops/core/prodxml.py:215-222 | SET, REPLACE and STRIP one after another give the tree of the closed form, whose values the next rows give. |
| ProdValues.Dates | ops/core/prodxml.py:136-158 | Universe's startdate is the configured startdate, its enddate the configured enddate. |
| ProdValues.Checkpoints | ops/core/prodxml.py:136-158 | Constants has the configured backdays, the factor's directory under the checkpoint root, and 5 as checkpointDays, with the prefix before a /datasvc path. |
| ProdValues.Outputs | ops/core/prodxml.py:136-158 | Stats has the pnl root and dumpPnl true, the leg the dump root and dumpAlphaFile true. |
| ProdValues.DataPath | ops/core/prodxml.py:136-202 | niodatapath is the configured one, its old form renewed, with the prefix before a /datasvc path. |
| ProdValues.RenewedInDocument | ops/core/prodxml.py:161-202 | Old paths and the old statistics module become the new ones, with the prefix outside Universe and without it inside. |
| ProdValues.ChosenModule | ops/core/prodxml.py:119-158 | The chosen node - the only one, else the first with the factor's file, else the first .py, else the first - gets prefix, name and its old file name, or the factor's when it had no .py. |
| ProdValues.DataIds | ops/core/prodxml.py:204-213 | A Data id loses one Mod at its end and nothing else. |
| ProdTwice.ChoiceIsStable | ops/core/prodxml.py:119-158 | A second run chooses the same module node. |
| ProdTwice.ProductionizeExactly | ops/core/prodxml.py:136-222 | With a proper prefix and name, productionizing any document twice is productionizing it once exactly when its paths and Data ids meet the conditions that the attributes do one by one. |
| ProdTwice.ConditionsExactly | ops/core/prodxml.py:14-15 | Every document with such paths and ids settles after one run exactly when prefix and name are proper: for each other prefix or name there is a document that does not. |
| ProdFrame.ProductionizeFrame | ops/core/prodxml.py:136-222 | On the whole document: the same elements; the ten settings set, to the values of ProdValues; every other attribute unchanged unless it is the chosen @module, a Data id, or a rule matches its value; /datasvc is no such value in Universe. |
| ProdFrame.UniverseKeepsDatasvc | ops/core/prodxml.py:16-18 | secID, holidaysfile, calendarfile and every other attribute of Universe that is neither set nor a path nor a module keeps its value, /datasvc included. |
| ProdTwice.IdExactly | ops/core/prodxml.py:183-213 | A Data id, with the prefix migration between the two strips, is stable exactly when it does not end in ModMod. |
| Bcorr.FiveSums | ops/tools/bcorr/bcorr.cpp:132-150 | The loop's accumulators are the five sums over the pairs. |
| Bcorr.CalculateCorrelation | ops/tools/bcorr/bcorr.cpp:132-158 | NaN exactly for unequal or short lengths or a constant series; else a value whose product with the root of the factors' product is n times the sum of products of deviations from the means, so of the covariance's sign; 1 on every rising line and -1 on every falling one. |
| Bcorr.FactorIsDeviation | ops/tools/bcorr/bcorr.cpp:150-158 | A variance factor is never negative, and zero exactly when the series is constant. |
| Bcorr.CauchySchwarz | ops/tools/bcorr/bcorr.cpp:150-158 | The square of the numerator is at most the product of the two factors. |
| Bcorr.CorrelationBounded | ops/tools/bcorr/bcorr.cpp:132-158 | A computed correlation lies in [-1, 1]. |
| Bcorr.NoValueExactly | ops/tools/bcorr/bcorr.cpp:132-158 | There is none exactly with fewer than two pairs or a constant series. |
| Bcorr.CorrelationSymmetric | ops/tools/bcorr/bcorr.cpp:132-158 | Swapping the series changes nothing. |
| Bcorr.CorrelationOfPermutation | ops/tools/bcorr/bcorr.cpp:132-158 | Reordering the pairs changes nothing. |
| Bcorr.GetCommonData | ops/tools/bcorr/bcorr.cpp:113-130 | The two vectors are the pairs of CommonDates, in iteration order. |
| Bcorr.CommonDates | ops/tools/bcorr/bcorr.cpp:113-130 | They belong to the dates strictly inside the window that both series have, each once: the first series' value, then the second's. |
| Bcorr.OrderOfDatesDoesNotMatter | ops/tools/bcorr/bcorr.cpp:113-158 | The correlation does not depend on the hash map's iteration order. |
| Pack.DateToIdxInjective | ops/services/pack/pack.py:108-133 | Two dates never share a row, even when the universe repeats a date. |
| Pack.RowExactly | ops/services/pack/pack.py:51-52 | A delay-0 dump goes to its date's own row, any other to the row before it; the first date then has none, nor has a date beyond the matrix. |
| Pack.NoRow | ops/services/pack/pack.py:108-133 | A date outside the universe has no row. |
| Pack.PackOne | ops/services/pack/pack.py:108-133 | Both matrices are what writing the files in order over NaN leaves; fails exactly when a file with a row is too wide. |
| Pack.PackedCell | ops/services/pack/pack.py:108-133 | The row of a date holds, cell by cell, what its dump of that version has, and NaN beyond it. |
| Pack.EmptyRow | ops/services/pack/pack.py:108-133 | A row to which no dump goes is all NaN. |
| Pack.PackIncremental | ops/services/pack/pack.py:136-174 | The same over the stored matrices, for the files of the given dates. |
| Pack.IncrementalIsFullExactly | ops/services/pack/pack.py:136-174 | Updating a row equals repacking it exactly when every cell the new file misses was NaN and unwritten rows say the same. |
| Pack.IncrementalIsFull | ops/services/pack/pack.py:136-174 | When dumps differ only on the given dates and none vanished or shrank, updating equals repacking cell by cell. |
| Pack.VerifySample | ops/services/pack/pack.py:73-105 | Accepts exactly when every picked cell is close to its matrix cell, NaN to NaN. |
| Pack.CloseMeans | ops/services/pack/pack.py:73-105 | Two cells are close when both are NaN or they are numbers less than the tolerance apart; an infinity is close to nothing. |
| Pack.PackAndVerify | ops/services/pack/pack.py:108-133 | A full pack followed by its check accepts every sample of the dumps exactly when no pick holds an infinity. |
| Compliance.Violations | ops/services/check/checker/compliance_checker.py:98-116 | Exactly the broken rules, each once. |
| Compliance.Check | ops/services/check/checker/compliance_checker.py:118-196 | One pass gives the verdict that the declarative counts over valid days give: refused for any day over the hard line, else exactly when more days break a limit than tolerated. |
| Compliance.VerdictMeaning | ops/services/check/checker/compliance_checker.py:118-196 | In terms of the files: any day over the hard line is refused, naming the first, whatever the tolerance; else refused exactly when more days break a limit than tolerated, with the days per limit and the last; skipped exactly without a valid day. |
| Compliance.LongestIsLongestRun | ops/services/check/checker/compliance_checker.py:135-189 | The running streak's maximum is the length of the longest run. |
| Compliance.LongestRunUnique | scripts/compliance_profile.py:56-64 | The description of a longest run fixes its length, so any two computations that meet it agree. |
| Compliance.DiffIsLoop | scripts/compliance_profile.py:56-64 | The array expression over starts and ends gives the same number. |
| Compliance.ProfileAgrees | scripts/compliance_profile.py:67-112 | On the same valid days the script's violating days and longest run are the checker's. |
| Compliance.InvalidDaysDoNotCount | ops/services/check/checker/compliance_checker.py:135-150 | Inserting invalid days anywhere changes no verdict. |
| Compliance.WindowOfFiles | ops/services/check/checker/compliance_checker.py:118-150 | The valid days of the last k files are a tail of the valid days, at most k long. |
| Doctor.Storage.Execute | ops/services/doctor/guards.py:47-135 | The outcome for every input, gate by gate; anything deleted lies under the resolved target and passed every gate with the lock held; nothing in the three protected trees changes, however it ends; every other outcome leaves tree and snapshots. |
| Doctor.RealKeepsName | ops/services/doctor/guards.py:81-83 | All of a target but its last component is resolved. |
| Doctor.ResidueExactly | ops/services/doctor/guards.py:43-44 | Temporary residue is a last component that is a dot, any text, and .tmp. |
| Doctor.Storage.Delete | ops/services/doctor/guards.py:119-135 | The operation by the target's shape: links and directories are refused to the wrong one. |
| Doctor.GateProtects | ops/services/doctor/guards.py:64-135 | For every fixer, what may go is inside an allowed root, outside the three protected trees, covers no data root, and of an ACTIVE factor is temporary residue. |
| EnvFile.ParseEnv | ops/services/setup/jfs.py:47-56 | The map in which later entries win over earlier ones. |
| EnvFile.ReadsFirstLine | ops/services/setup/jfs.py:47-56 | A text is read line by line from its start, later entries winning. |
| EnvFile.BreaksAndSpaces | ops/services/setup/jfs.py:47-56 | The characters that end a line and those that are stripped. |
| EnvFile.NoEntry | ops/services/setup/jfs.py:47-56 | A blank line, one whose first text is #, and one without an equals sign give no key. |
| EnvFile.GivesEntry | ops/services/setup/jfs.py:47-56 | Any other line gives the trimmed text before its first equals sign the trimmed text after it. |
| EnvFile.RenderEnv | ops/services/setup/jfs.py:59-76 | The loops over lines and missing keys give the rendering the lemmas below are about. |
| EnvFile.EntryRewritten | ops/services/setup/jfs.py:59-76 | The entry of a key with a new value becomes key, equals sign and value. |
| EnvFile.ParseRendered | ops/services/setup/jfs.py:47-76 | Parsing a rendered file gives the original's map overridden by the new values, also with repeated keys. |
| EnvFile.OtherLinesStay | ops/services/setup/jfs.py:59-76 | Comments, blanks and entries for other keys stay at their places. |
| EnvFile.RenderTwice | ops/services/setup/jfs.py:47-76 | Rendering twice is rendering once. |

## Left out

- Runs of gsim, simsummary and bcorr, and the stage checkers other than compliance: a stage's outcome is any of passes, skips, fails, raises.
- PostgreSQL's failures: a store transaction happens or refuses with FactorNotFound or StateConflict; a snapshot write may also fail and be swallowed. The JSON backend, connection pools and schema creation.
- Identity and state rows are one row; names with an identity row but no state row do not occur.
- The divergence check of check.py:273-280, checkpoint directories of checks, meta.json, the XML edits made before the lock, and the backfill operation.
- The counters and messages of `_batch.py`; its lock, recheck and outcome routing are steps of the machine.
- `shutil.move` across file systems: a move is one step.
- Repository.FactorRepository.Archive: the rewriting of the archived XML is one step that may raise; what it writes is modelled apart, in ProdXml, and the pnl and dump of the run are taken to be there.
- CheckService.RunOneLocked: one clock reading per command; the step machine, and with it every statement over runs, lets time pass between steps.
- LibraryTheorems.FilesMatchStatus: assumes, as the repository does, that no file operation raised on the factor and no check started without its staging directory; `StaleCheckExactly` and the witnesses say what happens otherwise.
- Whether a SUBMITTED factor has a staging directory: submit's rollback may remove it.
- Whether a single's checkpoint matches its frozen code after it left and came back: admission keeps an old checkpoint on purpose.
- GroupService.ProductionLine.Sync: what is left behind when it exits half-way is not stated beyond the outcome, and the database and the disk do not fail by themselves.
- GroupService.ProductionLine.PrecheckGroup: which legs are broken is given; compiling Python is not modelled.
- Outside edits that change only dump attributes of a group.xml, and superseded groups.
- GroupXml.BuildGroupXml: an element that the code reads without checking and that is missing ends the merge; the difference between one child element and a list of one is not modelled.
- Bootstrap.BuildAll: a group fails when it repeats a name; other failures of a copy or of the database are not modelled.
- Listing.ListFactors: the final sort by a metric is any function from a list of rows to a list of rows, because Python's order of NaN keys is no order; parsing of the filter text is not modelled.
- ProdXml.Productionize: the tree is rewritten as a value; a missing required node raises KeyError in the code and is not modelled.
- Rounding: measurements are reals with NaN and infinities beside them, and the correlation is over reals.
- Doctor.Storage.Execute: Path.resolve is any function of a path; the scans that produce findings are left out.
- The command line, rendering, reports, configuration, sudo, mounts and one-off migrations.
