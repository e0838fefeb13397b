# Dealbot: the controller's store, its scheduler, the record chains and the worker engine

Dealbot's controller keeps storage and retrieval tasks in a relational store. Workers pop, update and
finish them, a cron scheduler turns scheduled tasks into one-off children, finished tasks become
content-addressed records, and batches of records become a chain of signed updates that is announced
to Pando. A worker's engine runs a bounded number of tasks at a time. This project models that
behaviour in Dafny and proves what it keeps in every state and over every run.

Verify everything with `dafny verify dfyconfig.toml`.

## How it is organised

| file | content |
|---|---|
| `Wrappers.dfy`, `Text.dfy` | optional values and results; the string and number primitives of the log scanner |
| `Tasks.dfy` | task values and the transformers on them; stage history over sequences of updates |
| `StageExecution.dfy` | the loop that runs a stage, composed with the stored history |
| `FinalLogs.dfy` | the log scan of a finished task, proved against "the first entry that says so" |
| `StageTimeouts.dfy` | the timeout specifications and the counting check |
| `Engine.dfy` | the worker engine: interleaved events, and the loop as a class |
| `Store.dfy` | the tables, the SQL statements on them, and the block store |
| `RecordChain.dfy` | publishing records, the chain of updates, walking back |
| `TaskStore.dfy` | the transactions on task rows and the agreement of the redundant copies |
| `Controller.dfy` | the controller as a transition system with crashes and recoveries; its invariant |
| `Runs.dfy`, `RecordRuns.dfy`, `Children.dfy`, `Recovery.dfy`, `FollowUps.dfy` | what holds over whole runs |
| `Writes.dfy`, `LedgerHistory.dfy` | what each operation writes, field by field in the terms of its arguments and of the rows before; the history of a task in the ledger |
| `StateDB.dfy` | the `stateDB` object with its methods, proved to be runs of that transition system |
| `Pando.dfy` | the publisher object, its chain, and store and publisher together |
| `Witnesses.dfy` | runs from the initial state that show where a promise needs its condition |

The controller appears twice. `Controller.Apply` is one atomic operation of one goroutine (a committed
transaction, a step of a cron job, a crash, a recovery, the passing of time) and `Controller.Run` is any
sequence of them, so a theorem about `Run` covers every interleaving. `StateDatabase.StateDB` is the object
of the source: methods that copy the tables, change the copy statement by statement, and commit it or
leave the tables alone; their contracts say which operations they amount to, so the theorems about runs
apply to them.

The hash that names blocks and the identity's signature are parameters; the only assumption ever made is
that the hash has no collisions and no empty value. Cron and duration parsing are parameters too.

## What the code does not do

Where the code breaks a promise that its comments or its design make, the model follows the code. For each
case an exact condition is proved, and a run from the initial state shows the failure.

* *One unfinished child per scheduled task* fails when the query for unfinished children fails (its error
  is logged and its zero taken as the answer) or when an update reopens a finished child. Condition:
  `Children.ExactlyWhatBreaks`; runs: `Witnesses.TwoOpenChildren`, `Witnesses.ReopenedBeside`; the guarantee
  without those two: `Children.OneOpenChildInRuns`. A third way is outside the model: the cron library starts
  a run of a job even while an earlier one is under way, and two runs that both pass the check create two
  children. All of this assumes that they do not overlap.
* *A deleted scheduled task creates no child*: a job that had read the row before the deletion still creates
  one, whose parent then does not exist. One more child can appear iff a job was under way
  (`Recovery.OneMoreChildIffUnderWay`), and never two (`Recovery.GoneForGood`); run:
  `Witnesses.ChildOfDeletedTask`. Here too runs of one job are assumed not to overlap: with several under way
  the bound would be their number.
* *Every schedulable row has its job*: an expired job is removed before its row is deleted, and a failed
  deletion is only logged, so the row stays without a job until the process restarts. Condition:
  `Recovery.WhichRowsHaveJobs`; run: `Witnesses.ExpiredRowWithoutJob`; repair: `Recovery.RecoveryRestoresJobs`.
* *A reset leaves a task as if it had never been run*: only when the task came with a run count of zero;
  later copies of a scheduled task lose theirs. Condition: `Runs.ResetAsNeverRun`; run:
  `Witnesses.ResetLosesRunCount`.
* *Only scheduled or available tasks are deleted*: check and deletion are two transactions. What the check
  found still holds at the deletion iff every pop of the task, and every update of it to another status than
  available, was undone in between (`Runs.CheckOutlivesRun`; operation by operation,
  `Runs.WhatDeleteWouldFind`); run: `Witnesses.DeletedWhileWorkedOn`.
* *The engine never loses a slot*: a task that ends on cancellation returns without releasing, and the loop
  wedges iff every slot was lost that way (`EngineLoop.WedgedIffAllSlotsAbandoned`); run, for any number of
  slots: `Witnesses.WedgedEngine`.
* *Owner column and owner in the task agree*: iff no worker pops under the scheduler's own name
  (`TaskStore.PopKeepsInv`); run: `Witnesses.WorkerNamedScheduler`.
* *Publishing to Pando heals itself*: an update is reachable iff it or a later one was published
  (`Pando.PandoReachesExactly`); run: `Witnesses.UnreachableFromPando`.

## Model

| member | source | states |
|---|---|---|
| `Tasks.StageHistory` | tasks/model.go:542-572 | from a freshly assigned task, archived plus current details are the last details of every maximal run of equal stage names, in order, for any sequence of updates |
| `Tasks.LastUpdateWins` | tasks/model.go:542-572 | over any sequence of updates the deal and start time stay and every reported field is that of the last update |
| `Tasks.ReportedStage` | tasks/client.go:35-52 | what a worker reports about a stage is what the task then says: its name, details, status, run count, and its error unless that is empty |
| `StageExecution.ExecuteStage` | tasks/model.go:156-186 | the details sent are those of the stage, the k-th with exactly the logs of the first k steps, each extending the one before; the outcome names the first cancellation, failure or refusal |
| `StageExecution.OneStageArchive` | tasks/model.go:156-186 | while a stage is in progress the task shows its name and its last details under the worker's name without an error, and what went before stays archived |
| `StageExecution.StageIsArchived` | tasks/model.go:126-186 | a stage followed by another leaves one archived entry holding each completed step's logs and success line in order, and nothing of a failed step |
| `FinalLogs.ParseFinalLogs` | tasks/model.go:424-540 | the loop computes, field by field, what the first archived entry that determines the field says, last byte skipping the entry taken for first byte; a first-byte time never comes without a last-byte time, and the printed deal id exists iff the id is nonzero |
| `FinalLogs.FirstMeaning` | tasks/model.go:424-540 | "first" means the value at the least index where there is one, and none iff no entry gives one |
| `FinalLogs.EntriesInOrder` | tasks/model.go:458-475 | the entries are the archived stages one after the other: a dated description, then each log line with its time |
| `FinalLogs.TextFields` | tasks/model.go:485-527 | each version, proposal and peer id is what follows its prefix in the first log line that contains its key, and absent iff no line does |
| `FinalLogs.PayloadField` | tasks/model.go:432-513 | the payload is a retrieval deal's own, and a storage deal's the text after its prefix in the first line that contains the key |
| `FinalLogs.NumberFields` | tasks/model.go:496-509 | latency and byte count are the number in the first line with their key, as zero if it is not one of the right width |
| `FinalLogs.DealAndAddress` | tasks/model.go:493-523 | the deal id is the number in the first line that has one other than zero, the address the text in the first line where something follows the prefix |
| `FinalLogs.TimeFields` | tasks/model.go:446-537 | the first byte is timed by the first entry that mentions the text for the kind of deal, the last byte by the first other entry that mentions its text |
| `FinalLogs.NothingLogged` | tasks/model.go:425-441 | without a start or without archived stages only the deal's own size or payload is known |
| `FinalLogs.MillisecondsMeaning` | tasks/model.go:463-482 | a time is the milliseconds since the start, truncated toward zero and saturated at the range of a duration |
| `FinalLogs.DealIDRoundTrip` | tasks/model.go:519-524 | a deal id line written by a worker, first to parse, decodes to that id and its printed form reads back |
| `Text.AtoiItoa` | tasks/model.go:418-422 | printing and reading a 64-bit integer are inverse |
| `StageTimeouts.ParseStageTimeouts` | tasks/stage_timeouts.go:20-93 | succeeds iff every specification has an equals sign and a duration of at least a second, no two names are the same after trimming and lower-casing, and every name is known or a default; the result maps each name to its duration, an absent default to three hours, and nothing else |
| `StageTimeouts.CountTestIsExact` | tasks/stage_timeouts.go:83-90 | the comparison of sizes holds iff some given name is neither known nor a default, so the search for it always succeeds |
| `StageTimeouts.OrderDoesNotMatter` | tasks/stage_timeouts.go:20-93 | any reordering of the specifications is accepted alike and gives the same entries |
| `EngineLoop.SlotsInEveryRun` | engine/engine.go:166-233 | in every interleaving: active slots are the unreleased tasks plus the pending releases, never above the limit, and a slot is free iff a token or a pending timer will offer it |
| `EngineLoop.SendsNeverBlock` | engine/engine.go:176-213 | a releasing task always finds room, even after shutdown, and the loop's own send finds its channel empty |
| `EngineLoop.WedgedIffAllSlotsAbandoned` | engine/engine.go:303-323 | the loop is stuck at its select iff as many tasks as slots ended on cancellation without releasing |
| `EngineLoop.FreeSlotReachesPop` | engine/engine.go:183-232 | with a free slot the timer and the loop alone reach the next pop within four events |
| `EngineLoop.OneArmAfterClose` | engine/engine.go:183-191 | after shutdown is closed at most one more arm runs |
| `EngineLoop.ClosedLoopReturns` | engine/engine.go:183-191 | from wherever shutdown finds it the loop can return without any task, timer or token |
| `EngineLoop.ReturnedForGood` | engine/engine.go:183-191 | after it returned the loop takes nothing from its channels, whatever tasks and timer do |
| `EngineLoop.EveryPopHasAReason` | engine/engine.go:195-232 | over any run the loop pops at most once more than it admitted a task, saw the timer fire or got a slot back; it takes each firing of the timer at most once |
| `EngineLoop.AfterPop` | engine/engine.go:195-217 | after admitting a task with a slot left the loop goes on to pop without the timer; after an empty pop the timer is armed and nothing is offered |
| `EngineLoop.TaskLoop.Loop` | engine/engine.go:166-233 | the actions on the variables of the loop and its goroutines, in any order the schedule picks, are a run of the interleaving semantics and keep its invariant |
| `EngineLoop.OneTokenPerTask` | engine/engine.go:271-276 | over any run a task puts exactly one token into the release channel if it has released, and none otherwise |
| `EngineLoop.TaskLoop.ReleaseWorker` | engine/engine.go:271-276 | the first call adds one token, every later one changes nothing; the caller has to show that there is room |
| `Store.ArchiveKeepsClosed` | controller/state/statedb.go:654-672 | storing a block whose links resolve keeps the store link-closed and changes no stored block |
| `TaskStore.LedgerQueriesAreExact` | controller/state/statedb_dml.go:111-119 | the two ledger queries select exactly the rows whose own status would be selected |
| `TaskStore.PopKeepsInv` | controller/state/statedb.go:430-499 | a pop keeps every agreement of the copies iff the worker is not named like the scheduler |
| `TaskStore.PopAssigns` | controller/state/statedb.go:456-482 | in a reachable state an unowned row has no schedule, so a pop assigns it and changes nothing else |
| `TaskStore.UpdateKeepsInv` | controller/state/statedb.go:501-628 | an accepted update keeps ledger, owner column and task in agreement |
| `TaskStore.LogRecords` | controller/state/statedb.go:558-577 | the end of an update adds one unattached row naming the stored record iff the task is finished, stores the archived stages, and keeps chain and links |
| `TaskStore.ResetAllRows` | controller/state/statedb.go:1019-1061 | a reset rewrites exactly the listed rows |
| `TaskStore.CopyAsksForNothing` | tasks/model.go:255-293 | a copy made by the scheduler never has a schedule and never asks for a follow-up retrieval, however it is run |
| `RecordChain.PublishKeepsInv` | controller/state/statedb.go:892-1000 | publishing succeeds in every reachable state, grows the chain by one and keeps the whole record invariant |
| `RecordChain.PublishRows` | controller/state/statedb.go:918-994 | what a publish does to each row; no record of the worker stays unattached |
| `RecordChain.PublishedContents` | controller/state/statedb.go:933-980 | the new update holds exactly the worker's unattached records that are not filtered, as many as there are rows, each signed |
| `RecordChain.ChainDistinct` | controller/state/statedb.go:978-994 | without collisions of the hash the chain has no cycle and no repetition |
| `RecordChain.AtMostOneLatest` | controller/state/statedb.go:985-994 | no two rows are the latest update |
| `RecordChain.HeadWalk` | controller/state/statedb.go:850-889 | k links behind the head is the k-th newest update, and there is none iff fewer than k+1 were published |
| `RecordRuns.OneChainAlways` | controller/state/statedb.go:892-1000 | in every reachable state the update rows are one chain: each visited once, newest first, to the first, each signing its previous one, exactly the newest being the latest |
| `RecordRuns.RecordsOverRuns` | controller/state/statedb.go:558-577 | over any run no block changes or goes, record rows only move forward, the chain only grows |
| `RecordRuns.FinishedIsNeverLost` | controller/state/statedb.go:558-577 | after the update that finishes a task its record is for ever unattached, or reachable from the head, or filtered by its error message |
| `RecordRuns.PublishedForGood` | controller/state/statedb.go:918-994 | once its worker's records are published a record is attached for ever and reachable from the head unless filtered |
| `Controller.ApplyKeepsInv` | controller/state/statedb.go:735-781 | every atomic operation keeps the invariant of tables, chain and jobs |
| `Controller.ReachableInv` | controller/state/statedb.go:106-150 | every state reachable by any interleaving with crashes and recoveries satisfies that invariant |
| `Controller.ScheduleKeepsAll` | controller/state/taskscheduler.go:43-77 | turning a pending task into a job keeps it; in a reachable state the branch that hands the task back is never taken |
| `Controller.LoadKeepsAll` | controller/state/taskscheduler.go:79-117 | the first part of a job's run keeps it, and in a reachable state never finds a changed schedule |
| `Runs.RowSteps` | controller/state/statedb.go:430-628 | a row changes only by a pop of an unowned row, an update by its owner or a reset of its owner, and goes only by a deletion or an expiry |
| `Runs.NewRows` | controller/state/statedb.go:783-838 | a row appears only under a new id, for a client without a parent or for the job that created it |
| `Runs.ExclusiveAssignment` | controller/state/statedb.go:519-527 | between assignment and reset or deletion no one else holds the task and every update that commits is its worker's |
| `Runs.NoUpdateUntilAssigned` | controller/state/statedb.go:519-527 | an unassigned task accepts no update in any run until a pop assigns it |
| `Runs.ResetUnassigns` | controller/state/statedb.go:1019-1061 | a reset of its worker leaves a task in progress unassigned and available |
| `Runs.ResetAsNeverRun` | controller/state/statedb.go:1018-1061 | through any run in between, a reset puts the row of a fresh task back to what it was iff its run count was zero |
| `Runs.DealStays` | tasks/model.go:542-572 | no run changes the id or the deal of a task |
| `Runs.WhatDeleteWouldFind` | controller/state/statedb.go:1080-1095 | after any operation a known task may be deleted iff it was not just popped or updated to another status than available, and either it could be before or the operation put it back or removed it |
| `Runs.CheckOutlivesRun` | controller/state/statedb.go:1080-1095 | through any run, what the check of a deletion found holds at the deletion iff every such pop and update was undone in between |
| `Runs.QueuePosition` | controller/state/statedb_dml.go:60-73 | a surviving task keeps its place in the queue, its parent and its tag for ever |
| `Children.ExactlyWhatBreaks` | controller/state/taskscheduler.go:119-159 | the next operation leaves at most one unfinished child per parent iff it neither reopens nor creates one beside an unfinished one |
| `Children.CountIsExact` | controller/state/statedb_dml.go:30-34 | a job passes the check iff its task has no unfinished child |
| `Children.OneOpenChildInRuns` | controller/state/taskscheduler.go:119-159 | over runs with crashes and recoveries there is at most one unfinished child, given no reopening and no failed check while one is open |
| `Children.OneOpenChildFromStart` | controller/state/taskscheduler.go:119-159 | the same for every run from the empty store |
| `Children.FailedCheck` | controller/state/taskscheduler.go:119-130 | after a failed check the created child is the only unfinished one iff there was none |
| `Witnesses.TwoOpenChildren` | controller/state/taskscheduler.go:119-130 | a run without any update that ends with two unfinished children of one task, because the check failed once |
| `Witnesses.ReopenedBeside` | controller/state/statedb.go:511-527 | a run in which every check answers and an update of a finished child makes a second unfinished one |
| `Recovery.QuietJobsAreRows` | controller/state/taskscheduler.go:43-117 | with nothing under way the live jobs are one for each schedulable row but those whose expiry could not delete them, and no other row's |
| `Recovery.WhichRowsHaveJobs` | controller/state/taskscheduler.go:103-117 | after any run, with nothing under way, a row has a job iff it is schedulable and no deletion of it as expired has failed since the last crash |
| `Recovery.StuckIffExpiryFailed` | controller/state/taskscheduler.go:103-117 | the rows set apart in the invariant are exactly those of a failed deletion since the last crash |
| `Recovery.RecoveryRestoresJobs` | controller/state/taskscheduler.go:177-216 | after a crash at any moment recovery leaves the tables alone and a task has a job iff its row is schedulable, failed expiries included |
| `Recovery.CommittedRowIsRecovered` | controller/state/statedb.go:808-836 | a scheduled row committed just before the crash gets its job |
| `Recovery.GoneJobRemovesItself` | controller/state/taskscheduler.go:86-91 | the next run of a job whose row was deleted only removes the job |
| `FollowUps.EveryFollowUp` | controller/state/statedb.go:580-627 | over any run the retrievals asked for are, one for one, those saved, those lost in a crash or a failed transaction, and those still owed |
| `FollowUps.WhoAsks` | controller/state/statedb.go:580-604 | an update that commits asks for a retrieval iff it reports the success of a storage deal with a retrieval schedule |
| `FollowUps.WhatIsAsked` | controller/state/statedb.go:580-604 | the retrieval has the miner, retrieval schedule and limit of the storage deal, its tag and retrieval price or an empty tag and zero, no CAR export, and as payload what the first archived log line with that key names |
| `FollowUps.SavedIsTask` | controller/state/statedb.go:619-624 | what is saved is one new fresh task without a parent for exactly the retrieval asked for, under its tag, owned by the scheduler iff it is scheduled, with a first ledger entry, and one less is owed |
| `FollowUps.RepeatedSuccessAsksAgain` | controller/state/statedb.go:511-604 | the same report made again commits and asks for the same retrieval again |
| `Writes.NewTaskWrites` | controller/state/statedb.go:674-838 | a client's task is one new fresh row that stores the deal as given, with its tag if not empty, no parent, owned by the scheduler iff the deal has a schedule, and one ledger entry as available |
| `Writes.PopWrites` | tasks/model.go:343-359 | a pop changes one row: its worker and status are those asked for, its start lies after the clock before, everything else stays; and enters it in the ledger |
| `Writes.StartTimes` | tasks/model.go:343-359 | in a reachable state a task has a start time iff somebody works on it, after its creation and not in the future |
| `Writes.WhichUpdatesCommit` | controller/state/statedb.go:511-604 | an update commits iff it comes from the assigned worker, has a run count if it moves the task, and has the limit and payload that the retrieval it wants needs; otherwise the first of these that fails names the error |
| `Writes.UpdateWrites` | controller/state/statedb.go:536-556 | a committed update rewrites one row and makes one ledger entry with its status, stage and run count iff it names another stage or status |
| `Writes.UpdateArchives` | controller/state/statedb.go:630-652 | after a committed update the archived stages are a stored block, and no block changes |
| `Writes.FinishWrites` | controller/state/statedb.go:558-577 | finishing a task adds one unattached record row for the worker, and the block it names tells the task: status, error, deal, start, what the log says, and a link to the archived stages that resolves |
| `Writes.CreateWrites` | tasks/model.go:255-293 | a child is one new fresh row with the deal of its scheduled task without schedules, limits and retrieval terms, under its tag, with it as parent and with the run count of the job |
| `Writes.StartJobWrites` | controller/state/taskscheduler.go:43-77 | a pending task with a valid specification becomes one job on the schedule and limit of its deal that has not run and expires when the limit has passed; otherwise no job |
| `Writes.ScheduleOfDeal` | tasks/model.go:308-327 | the schedule that counts is the retrieval's if there is one, else the storage deal's, with a limit only beside a schedule |
| `Writes.LoadDecides` | controller/state/taskscheduler.go:79-117 | in a reachable state a job's run removes it if its row is gone, gives it up if its time is past, and else goes on with the row as it is |
| `Writes.JobsKeepTerms` | controller/state/taskscheduler.go:35-41 | over any run a job that is still there has its task, schedule, limit and expiry unchanged, and its run count grew by its runs that ended |
| `Writes.NeverBeforeItsLimit` | controller/state/taskscheduler.go:60-68 | whatever happens in between, a job whose row is there is given up at its next run iff its task has a limit and more than that has passed since the job was made |
| `LedgerHistory.ResetHistory` | controller/state/statedb.go:1043-1061 | a reset adds one ledger entry as available for each listed task, one after the other, and keeps all others |
| `LedgerHistory.HistoryIsKept` | controller/state/statedb.go:703-733 | over any run the entries of a task that is still there stay as they are and every new one is later |
| `Recovery.GoneForGood` | controller/state/taskscheduler.go:79-149 | a deleted scheduled task never returns, at most one more child of it appears in any run, and none if no job of it was under way |
| `Recovery.OneMoreChildIffUnderWay` | controller/state/taskscheduler.go:79-149 | a further child can appear iff a job of the deleted task is under way |
| `Witnesses.ChildOfDeletedTask` | controller/state/taskscheduler.go:79-149 | a run in which the task is deleted after its job's check and the child is created with a parent that does not exist |
| `Witnesses.ExpiredRowWithoutJob` | controller/state/taskscheduler.go:103-117 | a run that ends with nothing under way and a schedulable row without a job |
| `Witnesses.ResetLosesRunCount` | tasks/model.go:241-253 | a run in which popping and resetting the copy made by the second run of a job changes its row |
| `Witnesses.DeletedWhileWorkedOn` | controller/state/statedb.go:1080-1095 | the check passes, a worker pops the task, the deletion follows, and every update of the worker fails |
| `Witnesses.WorkerNamedScheduler` | controller/state/statedb.go:456-482 | a run after which owner column and task disagree |
| `Witnesses.WedgedEngine` | engine/engine.go:303-323 | for any number of slots, a run without shutdown after which the loop waits for ever |
| `Witnesses.UnreachableFromPando` | controller/tasks.go:144-157 | a run of store and publisher after which a published update cannot be reached from Pando |
| `StateDatabase.StateDB.constructor` | controller/state/statedb.go:106-150 | a new process over the last one's tables is a recovery: tables kept, exactly the jobs of the schedulable rows |
| `StateDatabase.StateDB.RecoverScheduledTasks` | controller/state/taskscheduler.go:177-216 | from any tables, schedules each row of the scheduler once and returns how many were accepted |
| `StateDatabase.StateDB.ScheduleTask` | controller/state/taskscheduler.go:43-77 | adds one job, or hands back an unscheduled task, or reports an invalid specification |
| `StateDatabase.StateDB.AssignTask` | controller/state/statedb.go:345-407 | from any tables: errors and draining; otherwise the worker gets the oldest unowned, unscheduled task whose tag is absent or among its trimmed tags (any task if it names none), started after the clock before, and none iff there is none; only older stray scheduled rows change besides, to the scheduler; it terminates |
| `StateDatabase.StateDB.PopTask` | controller/state/statedb.go:430-499 | one transaction on the oldest available matching row |
| `StateDatabase.PopFinishes` | controller/state/statedb.go:345-407 | the row popped after the strays were taken is the oldest runnable one of the original tables |
| `StateDatabase.StateDB.SaveTask` | controller/state/statedb.go:783-838 | row, ledger entry and owner in one transaction, then the job; an invalid schedule is reported though the row stays |
| `StateDatabase.StateDB.Update` | controller/state/statedb.go:501-628 | commits the update or changes nothing, then saves the follow-up retrieval that a successful storage deal asked for; if that fails the update stands |
| `StateDatabase.StateDB.PublishRecordsFrom` | controller/state/statedb.go:892-1000 | the loop over the links computes the publish transaction and returns the new head, or aborts on a missing block |
| `StateDatabase.StateDB.Filtered` | controller/state/statedb.go:957-966 | a record is kept out iff its error message contains one of the five texts |
| `StateDatabase.StateDB.GetHead` | controller/state/statedb.go:850-889 | the loop follows the walkback links; in a reachable state it returns the k-th newest update and fails iff there are fewer |
| `StateDatabase.StateDB.ResetWorkerTasks` | controller/state/statedb.go:1019-1078 | from any tables, resets each queried task once in one transaction, or changes nothing if one names no row; with rows stored under their own ids it is the reset operation |
| `StateDatabase.StateDB.CheckDelete` | controller/state/statedb.go:1080-1090 | the first transaction allows an existing task that is scheduled or available, and names the error otherwise |
| `StateDatabase.StateDB.DeleteRow` | controller/state/statedb.go:1091-1094 | the second one deletes the row and its ledger, whatever happened in between |
| `StateDatabase.StateDB.Delete` | controller/state/statedb.go:1080-1095 | both, one right after the other |
| `StateDatabase.StateDB.DrainWorker` | controller/state/statedb.go:1003-1008 | afterwards the worker is drained, and others are iff they were; a second drain is an error |
| `StateDatabase.StateDB.UndrainWorker` | controller/state/statedb.go:1011-1016 | afterwards the worker is not drained, and others are iff they were |
| `StateDatabase.StateDB.RunTask` | controller/state/taskscheduler.go:35-149 | one run of a job, with any of its transactions failing, is the matching sequence of job steps; it creates a child iff row, schedule, limit, check and save allow it, with the deal of the row without its schedules, the row's tag and the job's run count |
| `Pando.PandoPublisher.Start` | controller/publisher/pando_publisher.go:85-141 | succeeds iff it was not started and no step that runs fails, and then serves the persisted latest link; a failure after the publisher exists still counts as started |
| `Pando.PandoPublisher.Publish` | controller/publisher/pando_publisher.go:156-216 | stores metadata linking the payload and the latest one, then the latest link, then announces it, stopping at the first failure; succeeds iff it was started and none of these fails |
| `Pando.PublishKeepsChain` | controller/publisher/pando_publisher.go:156-216 | the persisted chain announces exactly the updates that passed, in order, and the served root is one of its blocks, wherever a publish fails |
| `Pando.PandoReachesExactly` | controller/tasks.go:144-157 | over any run of store and publisher an update is reachable from the persisted latest iff it or a later one passed |
| `Pando.PandoLosesNothing` | controller/tasks.go:144-157 | once the newest update passed all are reachable, and what is reachable stays so |

## Assumptions

* Clock readings are strictly increasing and generated ids are new (`Controller.Enabled`, and the `requires`
  of the methods that take an id).
* Runs of one job do not overlap: a job is read again only when it is idle.

## Left out

- HTTP handlers, clients, command line, GraphQL, user interface, spawners, metrics: plumbing without properties of their own.
- Transaction retries and connection handling: one successful attempt per transaction. The return value of a retried pop can be stale in the source, so claims are about committed rows.
- Postgres, JSON decoding and serialization errors, and the `cid` column of task rows: rows are values, and nothing in the claims reads that column.
- The order in which unattached records are returned: the source's query leaves it open; the model uses the order of insertion.
- StateDB.Delete: runs its two transactions back to back; what may come between them is covered by `CheckDelete`, `DeleteRow` and the unconditioned deletion of the transition system.
- The ledger's newest stage is not claimed to be the task's stage: an update without a stage at an unchanged status writes no entry.
- "Finished is absorbing" is not claimed: `Update` has no guard for it.
- "Each record is in one update" is not claimed: two rows may share a record's name, so claims are made row by row.
- "Close waits for all tasks" is not claimed: the wait group is passed by value. Every popped task is assumed to have a deal, since the branch for an unknown deal type returns without releasing.
- The shared backing array of archived stages: tasks are values, so aliasing between successive versions of a task is not modelled.
- Expiry limits across restarts: recovery computes them anew, so they hold within one job's life only.
- The rounding of `bytes received` is kept (a 10-bit parse), without a round trip for it; the stage that is current when a task finishes is not in its record.
- Storage and retrieval deals themselves: a step is what it logs and whether it fails.
- Announcing over libp2p, bootstrap and shutdown of the publisher: each is a call that may fail; metadata signatures are not modelled.
- Unicode and regional text rules: text is a sequence of characters; trimming, lower-casing and duration parsing are parameters.
