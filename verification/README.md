# Verification model

A Dafny model of the parts of the `afol` command line that change a project, hold locks or
parse what other programs wrote, with machine-checked proofs of what they keep. It covers:

- **Scaffold updates** (`Update*.dfy`): the journaled apply transaction, its restore on any
  exception, the rollback of a committed batch, and whole runs of both. A project is a tree
  (paths to bytes), a journal, backups and an id counter; every primitive may throw before
  or after it took effect. `UpdateApply` and `UpdateRollback` define one step, the class in
  `UpdateProject` is proved to perform it; `UpdateOutcomes` and `UpdateRollbackLaws` prove
  what single steps do, `UpdateHistory`, `UpdateApplySteps`, `UpdateRollbackSteps` and
  `UpdateUnwinding` what runs do, `UpdateStranding`, `UpdatePhantoms` and `UpdateOrder` what
  becomes of a run after a rollback out of order or a failure that the journal tells wrongly.
  `UpdatePlans` and `UpdateVerdicts` tell how an apply and a rollback end and what they leave
  over the plan, the journal, the tree, the backups and the faults alone.
- **Completion of work items**: the ordered completion locks, as one call (`TaskLocks.dfy`) and
  as a protocol of any number of callers (`LockProtocol.dfy`), the fenced run of several
  verification commands (`DoneRun.dfy`) and the release of its lease (`DoneRelease.dfy`).
- **Bootstrap** (`BootstrapTransaction.dfy`): snapshot, mutation phases, restore, over a tree
  with explicit directories.
- **The debounced watcher** (`WatchLoop.dfy`) as an event-loop state machine, and what its runs
  add up to (`WatchRuns.dfy`).
- **Command lines and flags**: quoting and splitting (`CommandLine.dfy`), alias rewriting
  (`FlagAliases.dfy`), the table-driven parser (`FlagSpecs.dfy`) and its results (`FlagResults.dfy`), the two composed
  (`FlagPipeline.dfy`), when that means what parsing with the aliases built in does
  (`FlagAgreement.dfy`, `FlagDivergence.dfy`), and the exact answer for the four commands that
  have both a table and a specification (`FlagCommands.dfy`, `SessionReading.dfy`,
  `DoneReading.dfy`).
- **Bounded output and framing**: UTF-8 (`Utf8.dfy`, section 3 of RFC 3629), paging
  (`FieldPages.dfy`), truncation (`BoundedText.dfy`), the halving search
  (`HalvingSearch.dfy`), JSON truncation (`JsonTruncation.dfy`), the batch stream
  (`BatchStream.dfy`) and section references (`SectionRefs.dfy`).

Code that updates variables is modelled by methods and classes, each proved equal to a
specification function; the laws are then lemmas about that function. `dafny verify
dfyconfig.toml` checks everything.

## Where the code does less than its name promises

Each of these is proved; where the code meets the property under a condition, that condition
is part of the result.

- A failed apply restores files from text that was read as UTF-8, so a file that is not text
  is restored as other bytes; and a write whose directory sync throws after the rename is not
  in the list of applied entries and stays (`UpdateOutcomes.FailureRestoresIff`).
- If the append of the committed records throws after writing them, the batch counts as
  committed although the tree was put back (`UpdateApplySteps.LiveIff`,
  `UpdateOutcomes.JournalAgreesIff`). It is then the newest live batch, and the run can be
  unwound only if every one of its paths holds content of the digest it was to get
  (`UpdatePhantoms.PhantomIff`).
- If the append of the committed undo records throws after writing them, the batch counts as
  undone although it stands, and it can never be rolled back
  (`UpdateRollbackLaws.UndoneIff`, `UpdateRollbackLaws.HalfUndoneIsStuck`). The other batches can be
  unwound to the first tree only if it had changed nothing (`UpdateStranding.HalfUndoneIff`).
- The integrity-error exits can leave a prepared record open; from then on the journal cannot
  be loaded and every rollback of any batch is refused, for good
  (`UpdateRollbackLaws.CorruptsIff`, `UpdateApplySteps.CorruptsIff`,
  `UpdateUnwinding.OpenRecordBlocksForever`).
- The checks of a rollback let a batch go although a later live batch came near one of its
  paths. The rest can be unwound exactly when the batch had changed nothing there; otherwise
  the newest batch near that path is stranded (`UpdateStranding.OutOfOrderIff`,
  `UpdateOrder.OutOfOrderGoesThrough`).
- Completion locks are sorted by id and keyed by trimmed id. For ids whose keys are not in
  ascending order a call can wait for itself or in a circle with another
  (`LockProtocol.UnorderedKeysDeadlock`), and an empty id would make the action run without
  any lock (`TaskLocks.ActionSeesAllLeasesIff`). The ids that the command line lets through are
  never empty and are their own keys, so neither can happen there
  (`TaskLocks.SelectorIdsAreSafe`, `LockProtocol.SelectorsNeverDeadlock`).
- A commit is shown as an error when giving the lease up goes wrong at any step, also when
  only a descriptor does not close (`DoneRelease.CommitUnreportedIff`).
- A rolled-back bootstrap leaves the missing ancestors of the target behind
  (`BootstrapTransaction.Bootstrap.Execute`).
- A watcher whose error output throws in a failed resync is left without a timer
  (`WatchLoop.UnreportedFailure`).
- Alias lookup also finds the names every object inherits (`FlagAliases.AllTextsIff`,
  `FlagAliases.InheritedNameIsLost`).
- Rewriting the aliases before parsing changes what some arguments mean. An alias that stands
  after a `--` is kept, so that the dry run of `session -- -D` is lost
  (`SessionReading.SessionAgreesIff`, `SessionReading.DryRunIsLost`) and `done --session -- -s`
  is refused (`DoneReading.SpecCheckIsRefused`), as is an alias behind `quick-task --task --`
  (`FlagCommands.QuickAgreesIff`). A value flag that the table does not list has its value
  rewritten: `done --test-shell -x` would run `--test` (`DoneReading.ShellRunsTarget`,
  `DoneReading.DoneAgreesIff`). `evidence admit` is not affected (`FlagCommands.AdmitAgrees`).
- Paging loses lone surrogates (`FieldPages.PagingLossless`,
  `FieldPages.LoneSurrogateIsLost`), and limits below three bytes are
  exceeded by the dots (`BoundedText.TruncateWithinLimitIff`).

## Model

| member | source | states |
|---|---|---|
| `UpdateProject.Project.StageUpdateOperations` | cli/commands/update.ts:358-419 | the loop stages every writable operation with the existence, text and fresh id the specification says, and uses up exactly the ids it hands out |
| `UpdateProject.Project.RestoreAppliedOperations` | cli/commands/update.ts:421-445 | walking the applied entries backwards in place gives the tree of `Restore` |
| `UpdateProject.Project.TransactBatch` | cli/commands/update.ts:496-577 | prepared append, backups, mutation, committed append and the catch block leave exactly the world and outcome of `Transact`, for every choice of failing primitives |
| `UpdateProject.Project.ApplyUpdateOperations` | cli/commands/update.ts:447-583 | conflict, nothing to do, stale under the locks, or the transaction: world and outcome of `Apply` |
| `UpdatePlans.ApplyEndings` | cli/commands/update.ts:447-577 | how every apply ends, over plan, trees and faults: a conflict is refused, a plan without a change does nothing, a staged path that came, went or changed its digest makes it stale, and otherwise it commits exactly when nothing throws and every written file has room |
| `UpdatePlans.ApplyCarriesOutPlan` | cli/commands/update.ts:512-546 | a committed apply carries out every operation of the plan: each written path holds what was planned, nothing is left at or below a removed one, and nothing else changed |
| `UpdatePlans.ApplyRecordsPlan` | cli/commands/update.ts:364-417 | its journal holds one prepared and then one committed record for each operation in plan order, with the digests before and after, and a full copy of what stood at its path |
| `UpdatePlans.RefusedApplyKeeps` | cli/commands/update.ts:456-492 | an apply that does not get to its transaction changes nothing but uses up ids |
| `UpdatePlans.StagedIsPlan` | cli/commands/update.ts:364-417 | every operation that is to change the tree is staged, at its rank among them, so that the rows over staged entries speak of the plan |
| `UpdateOutcomes.FailedTree` | cli/commands/update.ts:496-577 | after any failure, the content of every path at or below a staged one, as a function of how far the loop came: restored from the text read at staging, left as a half-reported operation made it, or as before |
| `UpdateOutcomes.UnstagedUnchanged` | cli/commands/update.ts:496-577 | no path outside the staged ones ever changes, whatever fails |
| `UpdateOutcomes.CommittedTree` | cli/commands/update.ts:512-546 | a committed batch leaves every staged path at its after-state, whatever the order of the other entries |
| `UpdateOutcomes.CommitsIff` | cli/commands/update.ts:496-577 | the batch commits exactly when no primitive throws and every written path has room for a file in the tree before the batch |
| `UpdateOutcomes.FailureRestoresIff` | cli/commands/update.ts:556-577 | a failed batch leaves the whole tree as it was if and only if every applied file holds what its text is written back as and no operation threw after taking effect (unless that effect changed nothing) |
| `UpdateOutcomes.JournalVerdict` | cli/commands/update.ts:496-577 | the last status in the journal of every staged id, in every ending |
| `UpdateOutcomes.JournalAgreesIff` | cli/commands/update.ts:549-577 | the journal calls the batch committed exactly when it is, except in one failure; a restored batch always ends as rolled_back |
| `UpdateApplySteps.ApplyAllOrNothing` | cli/commands/update.ts:447-583 | an apply either leaves exactly the planned contents of its staged entries and nothing else changed, or the tree as before (exactly when recoverable) |
| `UpdateApplySteps.LiveIff` | cli/commands/update.ts:549-577 | the journal lists the batch as live exactly when its committed records reached the file |
| `UpdateApplySteps.CorruptsIff` | cli/commands/update.ts:556-577 | an apply leaves an open prepared record, so that loading throws, exactly when prepared was written and neither committed nor rolled_back was |
| `UpdateApplySteps.ApplyKeeps` | cli/commands/update.ts:447-583 | in any run an apply keeps the invariant: a committed batch becomes the newest live one, a mended failure leaves the live batches alone |
| `UpdateProject.Project.ResolveBatch` | cli/commands/update.ts:647-677 | the loop of drift and backup checks finds the first problem in record order, or one entry per record; `UpdateVerdicts.RefusedIff` says which problem that is |
| `UpdateProject.Project.RestoreSnapshots` | cli/commands/update.ts:732-738 | putting the snapshots back in reverse order gives the tree of `RestoreAll` |
| `UpdateProject.Project.RollbackUpdateBatch` | cli/commands/update.ts:597-764 | every blocked, refused, failed and successful ending: world and outcome of `Rollback` |
| `UpdateVerdicts.RefusedIff` | cli/commands/update.ts:647-677 | with a readable journal and a batch not taken back, a rollback is refused exactly when a committed update has drifted, or existed before and has no backup or one without its file; the refusal names the first such update in the journal and its own reason |
| `UpdateVerdicts.RollbackEndings` | cli/commands/update.ts:601-757 | how every rollback ends, over journal, tree, backups and faults |
| `UpdateVerdicts.RollbackPutsBack` | cli/commands/update.ts:712-721 | after success every path of the batch holds the file of its backup, or nothing at or below it where there was nothing, and nothing else changed |
| `UpdateVerdicts.RollbackRecords` | cli/commands/update.ts:694-730 | its journal gains one prepared and then one committed undo record for each update, and the backups stay |
| `UpdateRollbackLaws.RestoreUndoesRevert` | cli/commands/update.ts:712-738 | however far the rollback came and whatever a broken write left behind, restoring the snapshots gives the tree before it, nested paths included |
| `UpdateRollbackLaws.AllOrNothing` | cli/commands/update.ts:597-764 | unless it succeeds a rollback leaves the tree as it was; a blocked one leaves journal and backups too |
| `UpdateRollbackLaws.SucceedsIff` | cli/commands/update.ts:601-757 | a rollback goes through exactly for a readable journal, a committed batch not fully undone, checks that resolve to entries, room for every file, and no failure |
| `UpdateRollbackLaws.SuccessTree` | cli/commands/update.ts:712-721 | after success every path of the batch holds its backup, or nothing where there was nothing, and no other path changed |
| `UpdateRollbackLaws.MarksUndone` | cli/commands/update.ts:690-730 | success leaves a readable journal in which every update of the batch is undone |
| `UpdateRollbackLaws.SecondIsBlocked` | cli/commands/update.ts:601-633 | a second rollback of the batch is blocked and changes nothing |
| `UpdateRollbackLaws.CorruptsIff` | cli/commands/update.ts:709-757 | a rollback makes the journal unreadable exactly when the append of its prepared records threw after writing them, or when they were written and neither the committed nor the rolled_back records were: the append of the latter threw first, and a file could not be put in place or the append of the former threw first |
| `UpdateRollbackLaws.UndoVerdict` | cli/commands/update.ts:694-757 | the last status of every undo record, in every ending |
| `UpdateRollbackLaws.UndoneIff` | cli/commands/update.ts:618-633 | an update counts as undone, as the loader reads the journal, exactly when its committed undo records reached the file |
| `UpdateRollbackLaws.UndoAgreesIff` | cli/commands/update.ts:694-757 | afterwards the tree is at the before-state or as it was; undone set and last status tell which, except in exactly one failure each |
| `UpdateRollbackLaws.HalfUndoneIsStuck` | cli/commands/update.ts:724-757 | if the append of the committed undo records throws after writing, the tree is put back and every later rollback of the batch is refused as already done |
| `UpdateHistory.ChainWithout` | cli/commands/update.ts:597-764 | a batch that no later live batch comes near can be undone in the middle, and the rest still leads back to the first tree |
| `UpdateHistory.ChainWithoutHarmless` | cli/commands/update.ts:597-764 | the same for a batch that changed nothing where later ones came near |
| `UpdateRollbackSteps.TopmostRollsBack` | cli/commands/update.ts:647-677 | in any reachable world the rollback of a batch that no later live one comes near never meets drift, a missing backup or a blocked path |
| `UpdateRollbackSteps.SuccessKeeps` | cli/commands/update.ts:597-764 | it then leaves the live batches, and all others stay as they were recorded and lead back to the first tree |
| `UpdateRollbackSteps.SuccessKeepsFiled` | cli/commands/update.ts:597-764 | whatever the tree, a rollback that goes through leaves the journal and the backups of all other live batches intact |
| `UpdateRollbackSteps.FailedRollbackKeeps` | cli/commands/update.ts:731-757 | a rollback of any batch that does not go through leaves tree and live batches alone, unless it leaves an undo record open (`UpdateUnwinding.OpenRecordBlocksForever`) or wrote its committed undo records (`UpdateStranding.HalfUndoneIff`) |
| `UpdateUnwinding.StepKeepsInv` | cli/commands/update.ts:447-764 | every step a run may take keeps the invariant tying tree, journal, backups and live batches together |
| `UpdateUnwinding.RunsUnwind` | cli/commands/update.ts:447-764 | after any run of applies, failed applies and rollbacks that keeps in step with the journal, rolling the live batches back in reverse commit order always goes through, gives the first tree back and leaves no batch live; the rows from `UpdateStranding.OutOfOrderIff` to `UpdateOrder.OutOfOrderGoesThrough` say what the other steps do |
| `UpdateUnwinding.RunsUnwindFrom` | cli/commands/update.ts:447-764 | from any world with a readable journal, whatever happened before, such a run can be unwound to the tree it started from |
| `UpdateStranding.OutOfOrderIff` | cli/commands/update.ts:647-721 | after a rollback of any live batch that goes through, the remaining ones can be unwound, and then to the first tree, exactly when the batch had changed nothing where a later live one came near, above or below a path included |
| `UpdateStranding.OutOfOrderStrands` | cli/commands/update.ts:655-721 | otherwise the newest batch near such a path can never be rolled back from there, and the unwinding stops |
| `UpdateStranding.HalfUndoneIff` | cli/commands/update.ts:724-757 | after a rollback that was put back and yet counts, the remaining live batches unwind to the first tree exactly when the batch had changed nothing |
| `UpdatePhantoms.PhantomIff` | cli/commands/update.ts:549-577 | after an apply that was put back and yet counts, the tree is as before, the batch is live, and the run unwinds exactly when its paths hold content of the digests it was to write |
| `UpdateUnwinding.OpenRecordBlocksForever` | cli/services/mutations/journal.ts:271-279 | once a record is left open, no run of applies and rollbacks makes any rollback possible again |
| `UpdateOrder.OutOfOrderGoesThrough` | cli/commands/update.ts:647-658 | from any reachable world: one file rewritten three times, the first batch passes every check, and then the third is never rolled back |
| `TaskLocks.AscendingUnique` | cli/commands/workbench.ts:1336-1339 | the sorted list of distinct ids is the same however they are listed |
| `TaskLocks.LessIff` | cli/commands/workbench.ts:1336-1339 | the order is that of the first code unit that differs, a proper prefix first |
| `TaskLocks.KeyIs` | cli/services/workbench/completion-lock.ts:494-512 | the key of a lock is its id without the blanks at both ends |
| `TaskLocks.CompletionLocks.WithTaskCompletionLocks` | cli/commands/workbench.ts:1332-1353 | the recursive acquisition leaves the lease list empty on every exit, produces exactly the events of `Trace`, and throws exactly when its log holds a time-out, an action that threw, or the release of a lost lock |
| `TaskLocks.TraceShape` | cli/commands/workbench.ts:1332-1353 | a call takes an initial part of the list in ascending order, runs the action once with exactly those leases or gives up at a busy lock, and releases in reverse order |
| `TaskLocks.ReturnsIff` | cli/commands/workbench.ts:1340-1352 | a call returns normally exactly when its action ran and returned and every lock it gave up was still its own |
| `TaskLocks.TimesOutIff` | cli/services/workbench/completion-lock.ts:514-537 | the whole log of a call that meets a lock which another call holds, or this one under the same key: it takes those before, times out there, and releases them |
| `TaskLocks.AttemptedAreTaken` | cli/commands/workbench.ts:1340-1347 | a call takes nothing but the ids it attempts, and all of them when each is free |
| `TaskLocks.ActionSeesAllLeasesIff` | cli/commands/workbench.ts:1340-1347 | the action sees one lease per distinct id if and only if no id is empty, no two have the same key, and no lock is busy elsewhere; with an empty id it sees none |
| `TaskLocks.SelectorIdsAreSafe` | cli/commands/workbench/args.ts:28-78 | the ids of the command line are never empty, have distinct keys, and their keys ascend |
| `LockProtocol.ReachableInv` | cli/commands/workbench.ts:1332-1353 | in every reachable state of any number of callers no lock has two holders |
| `LockProtocol.MoveChangesOneLock` | cli/commands/workbench.ts:1332-1353 | a move takes the wanted lock, gives back the one taken last, or changes none |
| `LockProtocol.ChainAscends` | cli/commands/workbench.ts:1336-1347 | along any chain of callers waiting for each other the wanted locks strictly ascend |
| `LockProtocol.NoDeadlock` | cli/commands/workbench.ts:1332-1353 | no reachable state in which every caller takes its locks in the order of their keys has a circle of waiting callers, a caller waiting for itself included |
| `LockProtocol.SelectorsNeverDeadlock` | cli/commands/workbench/args.ts:28-78 | runs of calls for ids of the command line never have such a circle |
| `LockProtocol.UnorderedKeysDeadlock` | cli/services/workbench/completion-lock.ts:494-512 | every list whose keys do not ascend can get stuck, by itself or in a circle with one orderly caller |
| `LockProtocol.SomebodyMoves` | cli/commands/workbench.ts:1332-1353 | from every waiting caller one reaches a caller that nobody holds up |
| `DoneRun.DoneExecution.Execute` | cli/commands/workbench.ts:1103-1230 | the loop over the verification commands produces exactly the events and the result of `RunLog` and `RunResult` |
| `DoneRun.RunsUpToFirstBad` | cli/commands/workbench.ts:1131-1216 | commands run in order up to the first step that loses the lease, is refused or does not pass, and none after it; the commit happens at most once |
| `DoneRun.CommittedIff` | cli/commands/workbench.ts:1103-1230 | the completion is committed exactly when every step kept the lease, had its evidence stored and passed; then each step's check and evidence precede the next command |
| `DoneRun.SuccessIff` | cli/commands/workbench.ts:1117-1127 | a run answers success with exactly the ids that were recovered, or that the commit returned after every step kept the lease, was stored and passed |
| `DoneRun.FailureIff` | cli/commands/workbench.ts:1136-1216 | a failure names the first step that did not go well, its own reason, and the ids stored before it or listed by the ledger |
| `DoneRun.EscapedIff` | cli/commands/workbench.ts:1103-1230 | an exception escapes exactly when the run cannot be prepared, completed, or closed at its first bad step |
| `DoneRun.LogTells` | cli/commands/workbench.ts:1103-1230 | the log is exactly what happens, told over the environment, each event once and in its place |
| `DoneRelease.TaskLease.Release` | cli/services/workbench/completion-lock.ts:623-681 | ownership check, probe, read-back, unlink and the closing of all descriptors, each able to fail: what leaves the lock, and exactly when the lock file is gone, also when the closing of a descriptor throws after the unlink |
| `DoneRelease.RunDone` | cli/commands/workbench.ts:1521-1533 | the run, the release and the report composed; a lost lock thrown with its result is shown as that result |
| `DoneRelease.LockFileGoneIff` | cli/services/workbench/completion-lock.ts:455-472 | whatever the run did, the lock file is gone exactly when no step that it reached lost the lease, nobody noticed a loss, the probe was written and read back, and the unlink ran |
| `DoneRelease.ShownIff` | cli/services/workbench/completion-lock.ts:664-681 | whatever ran, its result is shown exactly when both descriptors close and it is the failure of a lost lease or the lease was given up in order; otherwise an error is shown |
| `DoneRelease.CommitUnreportedIff` | cli/services/workbench/completion-lock.ts:623-681 | success is shown only for a commit; a commit is shown with the ids it returned exactly when every step of the release went well, and as an error otherwise |
| `BootstrapTransaction.NearestExistingDirectory` | cli/commands/bootstrap.ts:114-122 | the walk upwards ends at the nearest existing directory |
| `BootstrapTransaction.ContainerOutsideIff` | cli/commands/bootstrap.ts:124-142 | snapshot container and target lie outside each other, except for the root of the file system |
| `BootstrapTransaction.Bootstrap.Execute` | cli/commands/bootstrap.ts:1022-1131 | which outcome a call has, over the target, the phases and the faults: it finishes exactly when staging, the target directory and every phase succeed, and a failed restore is told; an exception in any phase leaves the target subtree as it was, staging is gone, the container is kept with a faithful copy exactly when the restore failed, and nothing else changed; the whole file system is as before exactly when the target was not created or its parent existed |
| `BootstrapTransaction.RollbackRestoresAllIff` | cli/commands/bootstrap.ts:144-152 | two file systems that agree on the target and everywhere but on its missing ancestors are equal exactly in that case; Execute applies it |
| `WatchLoop.PstrWatch.RunCallback` | cli/commands/pstr.ts:533-658 | each callback updates the closure's variables as `Step` says and keeps the invariant |
| `WatchLoop.ReachableInv` | cli/commands/pstr.ts:533-658 | while unsettled the timer is armed exactly when something is pending; once settled there is one exit code, no timer and no open handle |
| `WatchLoop.UnreportedFailure` | cli/commands/pstr.ts:561-567 | the state a failed flush would leave if the error output threw: unsettled, without a timer, and with the invariant broken exactly for a resync of an unknown state whose rebuild threw |
| `WatchLoop.SettledForGood` | cli/commands/pstr.ts:540-567 | after settling no callback changes anything |
| `WatchLoop.NextFlushCovers` | cli/commands/pstr.ts:569-658 | every delivered notification is covered by the next flush, as a listed path or a resync |
| `WatchLoop.WaitingMeansArmed` | cli/commands/pstr.ts:569-658 | a delivered notification not yet flushed has an armed timer, or the watcher has settled |
| `WatchLoop.LateNotificationLeaks` | cli/commands/pstr.ts:569-588 | handlers do not test for settling: a notification after it would arm a timer and leak handles |
| `WatchRuns.PendingIff` | cli/commands/pstr.ts:569-588 | until it settles the watcher holds exactly the paths of the delivered notifications that no flush has taken, and is in an unknown state exactly when one of them had no path |
| `WatchRuns.FlushDoes` | cli/commands/pstr.ts:626-646 | a flush settles the watcher exactly when the cycle, the reopening after a resync, or the output fails; otherwise nothing waits, and after a resync exactly the new handles are open, after a change the same as before |
| `WatchRuns.SettlesIff` | cli/commands/pstr.ts:540-567 | the watcher settles at the start if its handles cannot be opened, or at the first signal, watch error or failing flush: with exit code 0 for a signal and 2 otherwise |
| `CommandLine.SplitCommandLine` | cli/core/command-line.ts:1-68 | the loop with its backslash lookahead computes `Split`, the unclosed quote included |
| `CommandLine.SplitUndoesFormat` | cli/commands/workbench.ts:950-959 | splitting the quoted arguments joined by spaces gives the list back, for every list of strings |
| `CommandLine.FormatInjective` | cli/commands/workbench.ts:950-959 | no two argument lists print alike |
| `CommandLine.SplitUndoesDoubleQuotes` | cli/core/command-line.ts:8-32 | the double-quoted form with doubled backslashes reads back as the value |
| `CommandLine.SplitKeepsWord` | cli/core/command-line.ts:33-66 | a word without white space and quotes is one token as it stands, backslashes included |
| `CommandLine.QuoteAfterSlashes` | cli/core/command-line.ts:8-23 | half of a run of backslashes before a double quote stays; an odd one more makes the quote a character, otherwise it opens or closes a quotation |
| `CommandLine.EscapedReads` | cli/core/command-line.ts:33-45 | outside quotes a backslash makes a single quote or white space a character |
| `CommandLine.PrintedAsIsIff` | cli/commands/workbench.ts:950-953 | an argument is printed as it is exactly when it is not empty and needs no quotes |
| `CommandLine.RunAppend` | cli/core/command-line.ts:1-68 | reading a text is reading its two parts when the first does not end in a backslash |
| `CommandLine.SplitDistributes` | cli/core/command-line.ts:1-68 | splitting distributes over a separating space under that condition and closed quotes |
| `CommandLine.FinalBackslashJoins` | cli/core/command-line.ts:33-57 | without that condition it does not: the backslash escapes the space |
| `FlagAliases.NormalizeScopedFlags` | cli/aliases.ts:390-419 | the loop computes `Normalize`, which keeps the length |
| `FlagAliases.KeepsFromDoubleDash` | cli/aliases.ts:405-408 | everything from the first `--` on stays as it is |
| `FlagAliases.AllTextsIff` | cli/aliases.ts:409-417 | the result is a list of strings exactly when no looked-up argument is an inherited property name |
| `FlagAliases.InheritedNameIsLost` | cli/aliases.ts:409-417 | a concrete list: the argument `toString` becomes a function value |
| `FlagAliases.NormalizeIdempotent` | cli/aliases.ts:390-419 | rewriting a rewritten list changes nothing |
| `FlagSpecs.ParseFlagSpec` | cli/commands/flag-spec.ts:62-141 | the loop, its lookup map and the in-place stores leave the fields and the error of `Parse` |
| `FlagResults.ReadsSettings` | cli/commands/flag-spec.ts:97-141 | settings written out as arguments are read back, whatever follows: a switch given is on, a value is the last one given, several values are all of them in order, and nothing else changes |
| `FlagResults.SettingsSucceed` | cli/commands/flag-spec.ts:97-141 | settings and nothing else give no error |
| `FlagResults.UnknownEnds` | cli/commands/flag-spec.ts:104-108 | after any settings an argument that no entry names and that is not taken ends the parse with its own error |
| `FlagResults.MissingEnds` | cli/commands/flag-spec.ts:119-134 | after any settings a value flag with nothing, an empty or a dashed value that is not allowed ends it with the message the table says |
| `FlagResults.CallbacksRun` | cli/commands/flag-spec.ts:135-137 | of a value flag with callbacks the check comes first and either may refuse |
| `FlagResults.SwitchRuns` | cli/commands/flag-spec.ts:109-113 | a switch with a callback does what the callback does |
| `FlagResults.KeylessEnds` | cli/commands/flag-spec.ts:75-90 | a flag with neither callback nor key ends the parse with an error that names it |
| `FlagResults.OthersRun` | cli/commands/flag-spec.ts:99-118 | a terminator takes all that follows, an empty argument may be skipped, and any other goes to the positional callback |
| `FlagPipeline.FindExtended` | cli/commands/flag-spec.ts:97-106 | in the specification extended by the aliases an alias finds its target's definition and every other name its own, also where the specification lists an alias itself |
| `FlagPipeline.RewriteThenParse` | cli/commands/flag-spec.ts:92-141 | rewriting and then parsing gives the fields, and fails exactly when, parsing the raw arguments with the extended specification does, as long as the parse looks up no alias of a flag that the rewriting keeps and every flag makes the same of its value and of what the rewriting puts there |
| `FlagAgreement.FittingMeansSame` | cli/aliases.ts:390-419 | the same under a condition on the arguments alone: no value is `--`, and no value of an unlisted flag is an alias or a listed flag |
| `FlagAgreement.ListedIff` | cli/aliases.ts:405-416 | for every specification whose value flags are exactly the listed ones and that takes no alias for a positional argument, the readings agree if and only if the parse looks up no alias kept by the rewriting |
| `FlagDivergence.ValueIff` | cli/aliases.ts:409-416 | behind any arguments read in step, a flag and its value are read alike exactly when the flag makes the same of the value and of what the rewriting puts there; in particular where the value is no alias |
| `FlagDivergence.KeptAliasIff` | cli/aliases.ts:405-413 | behind any arguments read in step, an alias that the rewriting keeps is read alike exactly when an unknown argument does what its flag does |
| `FlagCommands.DoneMeansSame` | cli/commands/workbench/args.ts:492-602 | it holds of the `done` specification with its table, for every argument list whose values fit |
| `FlagCommands.AdmitAgrees` | cli/commands/workbench.ts:667-738 | for `evidence admit`, which lists some aliases itself and does not know the targets of others, the readings agree on every list |
| `FlagCommands.QuickAgreesIff` | cli/commands/quick-task.ts:78-150 | for `quick-task` they agree exactly when the parse looks up no kept alias |
| `FlagCommands.DashTaskHidesAliases` | cli/commands/quick-task.ts:101-115 | they never agree on an alias behind `--task --`, whatever follows |
| `SessionReading.SessionAgreesIff` | cli/commands/session-args.ts:40-96 | for `session` the readings agree exactly when the parse looks up no kept alias, after a `--` or after the value flag of another command; otherwise the rewriting leaves more positional arguments for good |
| `SessionReading.DashesHideAliases` | cli/commands/session-args.ts:76-83 | behind any arguments read in step they never agree on an alias after a `--`, whatever follows |
| `SessionReading.DryRunIsLost` | cli/commands/session-args.ts:40-96 | both readings of `-- -D`: two positional arguments, or a dry run |
| `DoneReading.DoneAgreesIff` | cli/commands/workbench/args.ts:492-602 | for `done` the readings agree exactly when the parse looks up no kept alias, the text of an accepted `--test-shell` is no alias, and every other value that the rewriting changed is given again |
| `DoneReading.ShellValueIff` | cli/commands/workbench/args.ts:551-564 | behind any arguments read in step, the value of `--test-shell` is read alike exactly when it is no alias or the flag is refused there |
| `DoneReading.ShellRunsTarget` | cli/commands/workbench/args.ts:551-564 | both readings of `--test-shell -x`: the shell command `--test`, or `-x` |
| `DoneReading.DashValueHidesAliases` | cli/aliases.ts:405-408 | behind any arguments read in step they never agree on an alias after a `--` that a flag stored as its value, whatever follows |
| `DoneReading.SpecCheckIsRefused` | cli/commands/workbench/args.ts:492-602 | both readings of `--session -- -s`: an unknown argument, or the spec check required |
| `Utf8.DecodeEncode` | cli/commands/evolve.ts:2377-2409 | decoding undoes encoding up to the replacement of lone surrogates (section 3 of RFC 3629) |
| `Utf8.EncodeDecode` | cli/commands/evolve.ts:2377-2409 | encoding undoes decoding |
| `Utf8.Rfc3629Letters` | cli/commands/evolve.ts:2377-2409 | the first example of section 7 of RFC 3629, with one, two and three bytes |
| `Utf8.Rfc3629Pair` | cli/commands/evolve.ts:2377-2409 | its example outside the basic plane, from a surrogate pair |
| `FieldPages.ProposalFieldPage` | cli/commands/evolve.ts:2377-2409 | the loop that advances the end computes `Page`; a bad offset is refused |
| `FieldPages.PageAdvances` | cli/commands/evolve.ts:2389-2408 | a page moves forward, returns at most three bytes more than asked, and names an offset the next call accepts |
| `FieldPages.PagingLossless` | cli/commands/evolve.ts:2377-2409 | following the offsets with any page sizes gives the value back if and only if it has no lone surrogate |
| `FieldPages.LoneSurrogateIsLost` | cli/commands/evolve.ts:2377-2409 | a concrete value that is not given back: one lone high surrogate |
| `BoundedText.FitIsLongest` | cli/commands/evolve.ts:1032-1048 | the UTF-8 encoding of the kept prefix fits and that of every longer prefix of whole code points does not |
| `BoundedText.TruncateMeans` | cli/commands/ux.ts:160-170 | a text that fits is left alone; any other becomes its longest prefix of whole code points that leaves room for three dots, or nothing, and the dots |
| `BoundedText.TruncateCounting` | cli/commands/evolve.ts:1032-1048 | the loop with the running byte count computes `Truncate` |
| `BoundedText.TruncateReencoding` | cli/commands/ux.ts:160-170 | the loop that encodes every candidate computes the same `Truncate` |
| `BoundedText.BoundDoneDiagnostic` | cli/commands/workbench.ts:1016-1033 | the third loop computes it too, at its fixed limit |
| `BoundedText.TruncateWithinLimitIff` | cli/commands/ux.ts:160-170 | the encoded result respects the limit exactly when the encoded text did or the limit is at least three |
| `BoundedText.TruncateIdempotent` | cli/commands/ux.ts:160-170 | truncating again changes nothing |
| `HalvingSearch.BoundedJsonData` | cli/commands/ux.ts:203-281 | the loop ends for every fit test and computes the specified payload |
| `HalvingSearch.SearchRounds` | cli/commands/ux.ts:227-265 | the rounds of the search: from at most 48 items of each list on, each halves the issues if any are left and they are no smaller than the entries or no entry is left, and else the entries; none before the last fits; the answer is the data, the last payload, or the minimal one |
| `HalvingSearch.ResultFitsOrNothingDoes` | cli/commands/ux.ts:203-281 | the result is the data, a payload that fits, or the minimal one and then not even the payload with empty lists fits |
| `HalvingSearch.CountsConserved` | cli/commands/ux.ts:209-250 | shown plus omitted is the original count, and what is shown is a compacted prefix |
| `HalvingSearch.FewCandidates` | cli/commands/ux.ts:227-265 | at most 13 payloads are built |
| `HalvingSearch.NothingTriedFits` | cli/commands/ux.ts:248-265 | no payload before the last fits and each round shows strictly fewer items |
| `JsonTruncation.TruncateArrays` | cli/commands/local-state.ts:129-149 | the recursion returns `Truncate` and bumps the shared counter by exactly `Omitted` |
| `JsonTruncation.TruncateTwice` | cli/commands/local-state.ts:129-149 | truncating at a and then at b is truncating at the smaller |
| `JsonTruncation.TruncateBounds` | cli/commands/local-state.ts:129-149 | every array of the result respects the limit |
| `JsonTruncation.OmittedZeroIff` | cli/commands/local-state.ts:129-149 | the count is zero exactly when the tree is unchanged |
| `JsonTruncation.OmittedAreDropped` | cli/commands/local-state.ts:129-149 | the counter is the number of values dropped, and these and the result hold together what the tree held |
| `JsonTruncation.TruncateShrinks` | cli/commands/local-state.ts:129-149 | every counted item is at least one value gone from the tree |
| `JsonTruncation.BoundedSnapshot` | cli/commands/local-state.ts:151-175 | the loop over the limits returns the first that fits, with its count |
| `JsonTruncation.ChooseLimitIsLargest` | cli/commands/local-state.ts:151-175 | the limit is the largest of 32, 16, 8 and 4 that fits, or 1 when none does |
| `JsonTruncation.TruncatedLosesSomething` | cli/commands/local-state.ts:151-175 | of a snapshot that is too large nothing is omitted exactly when none of its arrays has a second item |
| `BatchStream.AuditStream` | scripts/audit-public-content.ts:459-492 | the offset loop computes `AuditRest`: audited contents, finding, and where it stopped |
| `BatchStream.AuditUndoesPrint` | scripts/audit-public-content.ts:458-492 | for every list of printed blobs, whatever their bytes, exactly their contents are audited in order |
| `BatchStream.StopsAtMismatch` | scripts/audit-public-content.ts:458-492 | at the first mismatch it reports a finding with exactly the earlier blobs audited |
| `BatchStream.FrameIff` | scripts/audit-public-content.ts:461-491 | a frame is accepted exactly when header line, content and terminator stand as specified |
| `BatchStream.HeaderIff` | scripts/audit-public-content.ts:467-485 | a header line announces a size exactly when it is the id, `blob` and a number that is a safe integer, with single spaces between, whatever fields follow |
| `BatchStream.PrintInjective` | scripts/audit-public-content.ts:458-492 | two lists of contents under the same ids never print alike |
| `BatchStream.SelectBlobs` | scripts/audit-public-content.ts:421-448 | the loop over the listing selects the blobs, reports the sizes, and gives up over the total budget, as specified |
| `BatchStream.SelectedAre` | scripts/audit-public-content.ts:421-448 | nothing is asked for exactly when a line breaks the total of 256 MiB; otherwise the ids and sizes of the blobs of at most 10 MiB in order; one finding for each blob that does not count up to there and one for the line that breaks the total |
| `BatchStream.SelectWithinBudget` | scripts/audit-public-content.ts:421-454 | the bytes requested stay within the per-file and the total budget |
| `SectionRefs.ParseFormatIff` | cli/core/section-ref.ts:8-55 | parsing undoes formatting for exactly the canonical references |
| `SectionRefs.ParsedIsCanonical` | cli/core/section-ref.ts:8-48 | everything the parser accepts is canonical |
| `SectionRefs.ParseIff` | cli/core/section-ref.ts:8-48 | exactly which texts are accepted and as what: a domain, a colon, a path without marks, and then a section and an anchor, a mark with nothing behind it being dropped |
| `SectionRefs.ReparseStable` | cli/core/section-ref.ts:8-55 | formatting a parsed reference and parsing again changes nothing |
| `SectionRefs.FormatInjective` | cli/core/section-ref.ts:50-55 | formatting is injective on canonical references |
| `SectionRefs.FormatParseIff` | cli/core/section-ref.ts:8-55 | formatting what was parsed gives the very text back exactly when no mark dangles |

## Left out

Of the update model:

- Nested staged paths: the apply laws take paths none of which is below another, as the template paths are; rollback restores nested paths too.
- Directories exist exactly where files lie below them, so an empty directory is the same as none, and directories created for a write are not seen. A removal of a directory that throws half-way is not modelled for apply; for rollback a broken write or removal may leave anything.
- The journal, session and resource locks, the SHA-256 digest and the reading of text are trusted: digest and text are parameters of every statement. Timestamps, reasons and diff previews are not kept; every journal row is taken to parse.
- The restore's own writes are taken to succeed, as the code takes them to. The copies a rollback makes are local values here.
- The planner (cli/services/update/check.ts) is a parameter. Runs assume of it what it does: only existing files are removed, and contents are text. The tree is taken not to change between staging and the resource locks in runs; a single apply allows any change there.
- UpdateUnwinding.RunsUnwind: covers the runs whose failed applies are recoverable and told by the journal, and whose successful rollbacks are of a batch that no later live one comes near or that changed nothing there. What any other step does to the unwinding of the batches before it is told right after that step (`UpdateStranding`, `UpdatePhantoms`, `OpenRecordBlocksForever`); a run that goes on from there can be unwound to where it went on (`RunsUnwindFrom`), but how its batches and the stranded ones then mix is not told.
- UpdateStranding.OutOfOrderIff: takes the digest to tell apart, at the paths of the batch rolled back, what it left, what it had found and what is there now; nothing is assumed of the digest elsewhere.
- Recovery of prepared records by other commands (recoverPreparedMutations) and the other kinds of mutation record.

Of the other parts:

- Completion: the single-verification path of executeDoneLocked, runDoneBatch, how a lock file is created and reclaimed, the contents of the evidence ledger; the services are parameters that may refuse or throw at any step, and a completion service that throws is taken not to have committed. That different keys have different lock files is trusted to the digest in their names.
- Bootstrap: what the phases write (cleanupProviderCompatibleAgentsMutable among them) is arbitrary; the plan, symbolic links and permissions are not modelled.
- WatchLoop.ReachableInv: takes the error output of `fail` to return; `WatchLoop.UnreportedFailure` gives the state left when it throws, which ends the process unless something catches it.
- Watcher: the rebuild itself, and callbacks of closed handles, which the event loop is trusted not to deliver.
- Strings are sequences of Dafny characters, except in Utf8, FieldPages, BoundedText and TaskLocks, where they are UTF-16 code units.
- DoneReading.DoneAgreesIff: takes that no text of a dash and a letter or a second dash is blank or a finite number, as is true of trim and Number, which are parameters; SessionReading.SessionAgreesIff takes the same of its numbers.
- Flags: callbacks of a specification are pure functions of the fields; numbers and verification commands are kept as the texts they are made from; the text of error messages is compared only where the table fixes it. Parsing with the aliases built in is a reading to compare with: the code always rewrites first.
- Bounded output: the compaction of single items, the size measure and the fit test are parameters; for a test that is not monotone in the size the same results hold.
- Batch stream: the text of a size that is not decimal is read by a parameter standing for Number; ids are listed once each; the patterns searched in the contents are not modelled.
- Redaction before boundDoneDiagnostic, and boundedJsonValue.
- Help text, routing tables, report formatting, approval policy and release scripts: tabular or thin.
