# Ajax: the shared registry, agent status and their smaller helpers, verified

Ajax runs coding agents in worktrees and keeps one registry of tasks that several processes share:
the command line, the native cockpit and the web server. This project models the parts of it whose
correctness does not show in any single function, and proves what they promise.

- **The shared registry** (`Registry`, `RegistryEffects`, `TaskOrder`, `TaskFacts`, `ContextMerge`, `MergeMeaning`,
  `MergeCounterexamples`, `ContextSave`, `SaveProtocol`, `SaveSteps`, `SaveRuns`, `SaveCounterexamples`). Every
  process keeps a baseline and a revision, re-reads the revision when it saves, merges disk, memory and
  baseline if it moved, and commits with a compare-and-set. The merge is proved against a task-by-task
  specification; which tasks are refused, which survive and what each field and event becomes is then said of
  the three registries alone. The protocol is a state machine in which every read is a step of its own, and the
  results hold for any number of writers and every interleaving.
- **Agent status** (`CanonicalEvents`, `EventPhases`, `LaterTurns`, `StatusLog`, `StatusCache`, `AgentStatus`,
  `StatusShown`, `ReducerTies`, `StatusTold`). An append-only event log is grouped by run, folded by a state
  machine, turned into observations and reduced to one status, behind a cache keyed by the file's stamp. The
  results run end to end: what is shown of a task is told from the events of its log (`StatusTold`), which
  interleavings of the log give the same status, and when the cache may answer.
- **Notification episodes** (`Attention`, `AttentionHistory`). A debounce and re-arm machine over polls, with
  bounds on when and how often it notifies, and exactly when it does, over every run of inputs.
- **Task lifecycle, live observations and recovery** (`Lifecycle`, `Live`, `LiveApplication`, `LiveEffects`,
  `Recovery`, `RecoveryEffects`, `RecoveryFailure`). Invariants and effects over every stream of observations, and
  safe, complete and idempotent recovery of tasks from worktree listings.
- **Text and lists** (`ShellWords`, `DiffParser`, `DiffSections`, `DiffPrinting`, `DiffRoundTrip`, `DiffExactness`,
  `DiffStatus`, `DiffCounterexamples`, `PullRequests`, `Supervise`): a
  shell quoter, a unified-diff parser, a pull-request merge and a bounded event buffer, each with a
  round trip or an exact closed form. `Text`, `Sequences` and `Options` hold what the others share.

Code that updates state in place is a class or a method with a loop, proved equal to a function of the
state before; the results are lemmas about those functions. Lemmas whose names end in `Exactly` or `Told` say
what such a function computes in terms that do not use it: of the inputs, the history or the versions at hand.

## What the proofs found

Where the code does less than one would expect of it, the model keeps the code as it is, and a lemma
says when it does what it is for, or gives a run in which it does not.

- A load reads the contents and then the revision, in two steps. A commit of another process between
  them leaves a baseline that does not belong to its revision, and the next save deletes that process's
  work (`SaveCounterexamples.TornLoadLosesUpdate`). The protocol's merge theorem therefore asks of a commit
  that did not merge that the writer's baseline is coherent, which the explicit assumption
  `LoadsAreAtomic` gives for every commit of a run. A direct save is the merge exactly if no task needs
  one (`SaveRuns.DirectSaveIsMergeExactly`), and one of unedited memory leaves the store alone exactly if
  the baseline is coherent (`SaveProtocol.UneditedSaveNeedsCoherence`).
- A save updates the baseline but not the caller's registry. Most of the web server's saves adopt what
  they saved, but the checkpoints of a start do not. A writer that saved a merge without adopting it
  deletes, with its next save, the tasks the merge took over
  (`SaveCounterexamples.UnadoptedMergeLosesUpdate`); what a writer has not touched is safe as long as it
  has not done that (`SaveProtocol.UntouchedTasksSurvive`).
- Contents are loaded without events and receipts, and a commit rewrites the stored ones. A stored event
  of a task that survives a commit is told of afterwards exactly if the committer's memory tells of it,
  and a stored receipt stays exactly if memory has one of its identity
  (`SaveProtocol.StoredEventSurvives`, `SaveProtocol.StoredReceiptSurvives`). So a save that edited
  nothing takes away a note another process stored (`SaveCounterexamples.SaveLosesEvent`), although the
  merge itself would carry disk's history over (`MergeMeaning.EventCarryOver`).
- The field merge looks at memory's fields only. A fact that memory cleared comes back unless disk still
  has the baseline's task, and the merge commutes exactly if no fact was cleared on one side alone, or
  both sides clash (`MergeMeaning.ClearedField`, `TaskFacts.MergeCommutes`,
  `MergeCounterexamples.ClearedNoteReturns`, `MergeCounterexamples.SwappedMergeDiffers`).
- The lifecycle check refuses a merge even when disk alone moved the lifecycle
  (`MergeMeaning.MemoryUnchanged`, `MergeCounterexamples.MovedLifecycleIsRefused`).
- A cached status may carry the time of an earlier call. Over a growing log, every call answers as some
  moment of it would exactly if the instants in all beginnings of the log fit 64 bits; any log in which one
  does not fit has a run whose second call is stale (`StatusCache.CoherentExactlyIfTimesFit`,
  `StatusCache.StaleTimeIsCached`).
- Which of several equally ranked observations of the primary run is shown depends on their order, and
  nothing depends on it exactly if they are all shown alike (`ReducerTies.ReducerIsExactlySetFunction`,
  `ReducerTies.OrderShows`).
- The fold remembers for good that some turn of a run has settled. In a later turn a tool that finishes makes the
  run look done although the turn is open, and an answered request leaves it waiting
  (`LaterTurns.OpenTurnLooksDone`, `LaterTurns.AnsweredLooksWaiting`). A run with an open turn is reported as done
  exactly if an earlier turn settled and, with nothing pending, a finish left no tool open and nothing set the run
  going since; an answer leaves it blocked exactly if some turn has settled
  (`LaterTurns.OpenTurnLooksDoneExactly`, `LaterTurns.AnswerLeavesBlockedExactly`).
- The path of a file is the second word of its header. A path with whitespace in it is cut, and one that a header
  names twice is read as it is exactly if it has none (`DiffSections.HeaderPathExactly`).
- A printed patch loses three things on the way through the parser: the blanks at the end of the text, and
  with them blank context lines that end it; a carriage return at the end of any line; and every body line
  that starts with none of the signs, among them the added line `++…` and the deleted line `--…`, which look
  like file headers. A file's hunks come back exactly if each of their lines starts with a space, one `+` or
  one `-`, no line or header of theirs ends in a carriage return, and, for a last file with hunks, the text
  does not end in whitespace (`DiffExactness.RoundTripIsExact`, `DiffCounterexamples.HeaderLikeLineIsLost`,
  `DiffCounterexamples.TrailingBlankIsLost`, `DiffCounterexamples.BlankContextIsLost`,
  `DiffCounterexamples.CarriageReturnIsLost`).
- The parser looks for the marks of git's extended header in the whole section. The status is the declared one
  exactly if no line, path lines and hunk lines included, has a mark that counts for more; an added line
  that quotes `new file mode` makes an old file a new one (`DiffStatus.StatusIsExact`,
  `DiffCounterexamples.QuotedMarkChangesStatus`).
- Recovery fails when an id it would give belongs to a live task. It fails exactly if the id of a missing
  task is taken, or shared by two missing tasks of different repositories or handles, and never where ids
  are made of repository and handle and no repository's name has a slash. New tasks refuse such names, but
  recovery takes them from the configuration: branch `ajax/b/c` of repository `a` and branch `ajax/c` of
  repository `a/b` both ask for task `a/b/c` (`RecoveryFailure.RecoveryFailsExactly`,
  `RecoveryFailure.RecoveryNeverFails`, `RecoveryFailure.RecoveryCanFail`).

## Model

| member | source | states |
|---|---|---|
| Registry.InMemoryRegistry.Create | crates/ajax-core/src/registry.rs:69-91 | creating a task is refused exactly when a live task has its id; otherwise the task replaces a removed one, whose events and receipts go |
| Registry.InMemoryRegistry.Delete | crates/ajax-core/src/registry.rs:93-103 | deleting takes the task's events and receipts with it and nothing else |
| Registry.InMemoryRegistry.ChangeLifecycle | crates/ajax-core/src/registry.rs:117-139 | a lifecycle update is refused for a missing task or a forbidden edge, and leaves its event |
| Registry.InMemoryRegistry.ChangeEvidence | crates/ajax-core/src/registry.rs:157-215 | git, tmux and window evidence change the task and leave one event |
| Registry.InMemoryRegistry.Observe | crates/ajax-core/src/registry.rs:217-239 | a live observation leaves an event exactly when it moved the lifecycle |
| Registry.InMemoryRegistry.Record | crates/ajax-core/src/registry.rs:141-155 | an event is appended for a present task only |
| Registry.InMemoryRegistry.RecordReceipt | crates/ajax-core/src/registry.rs:252-260 | a receipt is stored for a present task only, replacing one of the same identity |
| Registry.OperationKeepsIntegrity | crates/ajax-core/src/registry.rs:61-278 | no operation, refused or not, leaves an event or receipt without its task |
| Registry.IntegrityAlways | crates/ajax-core/src/registry.rs:61-278 | after any run of operations from an empty registry every event and receipt belongs to a present task |
| Registry.HistoryIsAppendOnly | crates/ajax-core/src/registry.rs:68-278 | a task's history only grows until the task is created anew or deleted, when it starts over; other tasks' histories never change |
| RegistryEffects.OthersUntouched | crates/ajax-core/src/registry.rs:68-278 | no operation changes another task, its history or its receipts |
| RegistryEffects.WithoutItsTask | crates/ajax-core/src/registry.rs:68-278 | on a task that is not there only a creation succeeds, and it starts with its creation event and no receipts |
| RegistryEffects.OnItsTask | crates/ajax-core/src/registry.rs:68-278 | on a task that is there only re-creating a live task and a forbidden edge are refused; every other operation changes task, history and receipts just so |
| TaskOrder.First | crates/ajax-core/src/registry.rs:62 | the task visited first is the one whose id precedes all others |
| TaskOrder.PrecedesMeaning | crates/ajax-core/src/registry.rs:62 | one id precedes another if and only if they agree up to where the first ends or has the smaller character |
| TaskFacts.MergeFields | crates/ajax-cli/src/context.rs:410-422 | the loop over memory's fields, in any order, refuses exactly when some field clashes and otherwise lays memory's changes over disk |
| TaskFacts.MergeSameTaskFacts | crates/ajax-cli/src/context.rs:390-427 | the merge never fails to decode, and declines exactly when a field of memory clashes |
| TaskFacts.DecodeUndoesEncode | crates/ajax-cli/src/context.rs:395-427 | a task's fields determine the task |
| TaskFacts.FieldMeaning | crates/ajax-cli/src/context.rs:411-422 | each field memory holds and changed has memory's value, every other has disk's, absent ones included |
| TaskFacts.MergeKeepsIdentity | crates/ajax-cli/src/context.rs:390-427 | merging two versions of a task keeps its id and, if they agree on it, its creation time |
| TaskFacts.RefusedExactly | crates/ajax-cli/src/context.rs:411-422 | the field merge is refused if and only if memory holds a field on which disk, memory and baseline all differ |
| TaskFacts.MergeCommutes | crates/ajax-cli/src/context.rs:410-422 | swapping disk and memory gives the same fields if and only if no fact was cleared on one side alone, or each side holds a field on which disk, memory and baseline all differ |
| TaskFacts.ClearedFactStays | crates/ajax-cli/src/context.rs:411-422 | a fact memory cleared is still there after a field merge with a disk that has it |
| ContextMerge.MergeOneTask | crates/ajax-cli/src/context.rs:300-344 | one task of memory: conflict, keep, replace, merge or create, with the one event a creation leaves; RefusalIsExact says which conflict |
| ContextMerge.RefusalIsExact | crates/ajax-cli/src/context.rs:302-344 | a task is refused if and only if both sides hold it and they differ with no baseline, disk moved the lifecycle elsewhere than memory has it with neither removed, or all three disagree on a field memory holds |
| ContextMerge.MergeTasks | crates/ajax-cli/src/context.rs:299-345 | the loop over memory's tasks, in the order of their ids, reaches every task's outcome, or stops at the first task that conflicts |
| ContextMerge.ApplyDeletions | crates/ajax-cli/src/context.rs:347-359 | exactly the tasks memory deleted, whose incarnation is still the baseline's, go with their history |
| ContextMerge.CarryMemoryEvents | crates/ajax-cli/src/context.rs:361-375 | memory's events of present tasks are appended unless one of that task, kind and message is there |
| ContextMerge.CarryMemoryReceipts | crates/ajax-cli/src/context.rs:376-385 | memory's receipts of present tasks are recorded over disk's |
| ContextMerge.MergeRegistries | crates/ajax-cli/src/context.rs:293-388 | the whole merge meets the task-by-task specification with both histories carried over and new tasks in order; it fails if and only if a task is refused, naming the first; the unreachable failures never happen |
| MergeMeaning.SurvivingIds | crates/ajax-cli/src/context.rs:299-359 | a task survives if and only if disk has it and memory did not delete that incarnation, or it is new in memory |
| MergeMeaning.MergedIds | crates/ajax-cli/src/context.rs:299-359 | which tasks a merge has, by who holds them and, for those memory deleted, when they were created |
| MergeMeaning.OwnCreationSurvives | crates/ajax-cli/src/context.rs:333-343 | a task created since the baseline survives every merge, refreshed if it is new to disk and unchanged if disk has the same; a different one of its id would have been refused |
| MergeMeaning.OthersTaskStays | crates/ajax-cli/src/context.rs:347-359 | a task memory does not hold is as disk has it |
| MergeMeaning.MergeExistsExactly | crates/ajax-cli/src/context.rs:299-345 | there is a merge if and only if no task is refused |
| MergeMeaning.SharedTaskFields | crates/ajax-cli/src/context.rs:302-332 | for a task in all three registries, which version every field comes from |
| MergeMeaning.ClearedField | crates/ajax-cli/src/context.rs:390-427 | a field memory cleared stays cleared if and only if disk lacks it too or still has the baseline's task |
| MergeMeaning.MergeIsUnique | crates/ajax-cli/src/context.rs:299-359 | the order in which tasks are visited does not show in the result |
| MergeMeaning.DiskUnchanged | crates/ajax-cli/src/context.rs:315-337 | onto an unchanged disk, the merge succeeds and is memory, with new tasks as creating them refreshes them |
| MergeMeaning.MemoryUnchanged | crates/ajax-cli/src/context.rs:302-321 | from an unchanged memory the merge is disk, and is refused if and only if disk alone moved a lifecycle among unremoved versions |
| MergeMeaning.UntouchedKeepsDisk | crates/ajax-cli/src/context.rs:299-359 | a task memory has as the baseline has it is left as disk has it |
| MergeMeaning.EventCarryOver | crates/ajax-cli/src/context.rs:361-375 | disk's events of surviving tasks are a prefix in order, every event of memory is represented, and nothing added repeats another's task, kind and message |
| MergeMeaning.MergedEvents | crates/ajax-cli/src/context.rs:333-375 | the merged events are disk's of surviving tasks, the creations of new tasks in the order of their ids, and in memory's order each story these do not tell, once and stamped with the time |
| MergeMeaning.ReceiptCarryOver | crates/ajax-cli/src/context.rs:376-385 | of surviving tasks memory's receipts win by identity and disk-only ones stay; no other receipt is there |
| MergeMeaning.MergeKeepsIntegrity | crates/ajax-cli/src/context.rs:293-388 | the merged registry has no event or receipt without its task, and every task under its own id |
| MergeCounterexamples.ClearedNoteReturns | crates/ajax-cli/src/context.rs:410-422 | a merge that brings back a fact memory cleared |
| MergeCounterexamples.SwappedMergeDiffers | crates/ajax-cli/src/context.rs:410-422 | two versions and a baseline whose field merge depends on which side is disk |
| MergeCounterexamples.MovedLifecycleIsRefused | crates/ajax-cli/src/context.rs:302-314 | a merge from unchanged memory that is refused |
| ContextSave.ContextSaveState.AllowEmptyRegistryOnce | crates/ajax-cli/src/context.rs:221-225 | the authorization is set and nothing else changes |
| ContextSave.ContextSaveState.PreventAccidentalEmptyOverwrite | crates/ajax-cli/src/context.rs:429-460 | exactly when a proposal without persistable tasks is let through, and which refusal is given otherwise |
| ContextSave.ContextSaveState.Propose | crates/ajax-cli/src/context.rs:254-263 | memory itself at the loaded revision, the merge at any other, refused only for the first conflicting task |
| ContextSave.ContextSaveState.SaveContextWithState | crates/ajax-cli/src/context.rs:236-283 | a save succeeds if and only if no task is refused, the store has not moved, and it saves a persistable task, is authorized, is the first of all or replaces nothing persistable; each failure has its cause, and the authorization is used up unless the merge was refused |
| ContextSave.CliRuntimeBridge.PersistChangedState | crates/ajax-cli/src/web_backend.rs:459-470 | after a save the registry and the baseline are what was committed; after a failure, whose cause is named, both are unchanged |
| ContextSave.CliRuntimeBridge.ReloadContextIfStale | crates/ajax-cli/src/web_backend.rs:432-457 | the bridge reloads if and only if there is a state file and its time or the revision moved, and then starts from what it read |
| SaveProtocol.SoundAlways | crates/ajax-cli/src/context.rs:183-283 | the invariant of every reachable state: proposals are merges, guards still hold at their revision, histories belong to their tasks |
| SaveProtocol.CommitIsMerge | crates/ajax-cli/src/context.rs:236-283 | no lost update: every accepted commit that merged, and every direct one from a coherent baseline, raises the revision by one and is the three-way merge of the commit just before it |
| SaveProtocol.UntouchedTasksSurvive | crates/ajax-cli/src/web_backend.rs:291-316 | a task a writer did not edit since it loaded or adopted a save is, after each of its commits, what the commit before had, unless it saved a merge since without adopting it |
| SaveProtocol.AtomicLoadsAreCoherent | crates/ajax-cli/src/context.rs:183-205 | if no commit lands inside a load, every baseline of every writer is what the store had at its revision, at every moment |
| SaveProtocol.EveryCommitIsMerge | crates/ajax-cli/src/context.rs:183-283 | under atomic loads both results hold of every commit of every run |
| SaveProtocol.UneditedSaveNeedsCoherence | crates/ajax-cli/src/context.rs:192-205 | a direct save of unedited memory leaves the stored tasks alone if and only if the baseline is coherent |
| SaveProtocol.DirectSaveKeepsAgreed | crates/ajax-cli/src/context.rs:261-283 | a direct save from a coherent baseline changes a task if and only if memory differs from the baseline on it |
| SaveProtocol.CommitReplacesHistory | crates/ajax-core/src/registry/sqlite/save.rs:84-135 | a commit's events are the committer's own or tell of tasks that were not stored, all of memory's events of surviving tasks are told of, and its receipts are exactly memory's of surviving tasks |
| SaveProtocol.StoredEventSurvives | crates/ajax-cli/src/context.rs:254-263 | an event stored before a commit, of a task that survives, is told of afterwards if and only if the committer's memory tells of it |
| SaveProtocol.StoredReceiptSurvives | crates/ajax-cli/src/context.rs:254-263 | a receipt stored before a commit, of a task that survives, is afterwards what memory has of its identity, and gone if memory has none |
| SaveProtocol.WipesAreAuthorized | crates/ajax-cli/src/context.rs:264-282 | no interleaving lets a commit replace a store that has persistable tasks by one that has none, unless that save consumed an authorization |
| SaveProtocol.OneWipePerAuthorization | crates/ajax-cli/src/context.rs:214-225 | over every run a writer wipes the store at most as often as it was authorized |
| SaveSteps.ReadDiskRefusesExactly | crates/ajax-cli/src/context.rs:254-263 | the merge step of a save ends it if and only if the revision moved and some task is refused |
| SaveSteps.GuardPassesExactly | crates/ajax-cli/src/context.rs:429-460 | the guard step passes a proposal if and only if it holds a persistable task, is authorized, is the first of all or replaces nothing persistable, and uses the authorization up |
| SaveSteps.AuthorizedPassesGuard | crates/ajax-cli/src/context.rs:442-444 | in every run an authorized writer's guard step passes, whatever it proposes |
| SaveSteps.AuthorizedWipeCommits | crates/ajax-cli/src/web_backend.rs:281-290 | a run in which an authorized delete-all empties the store |
| SaveSteps.SaveIsItsSteps | crates/ajax-cli/src/context.rs:236-283 | whatever an uninterrupted save returns, protocol steps of its writer store it and leave the writer as the save leaves its state |
| SaveRuns.DirectSaveIsMergeExactly | crates/ajax-cli/src/context.rs:254-263 | a direct save is the three-way merge if and only if on each task the store has the version of the baseline or of memory, or memory deleted the stored incarnation, or memory makes all of disk's changes |
| SaveRuns.CreationsSurvive | crates/ajax-cli/src/context.rs:333-343 | in every run a commit stores each task its process created since the baseline, whatever others committed; if it merged over a task of that id, both are the same |
| SaveRuns.FieldOutlivesCommits | crates/ajax-cli/src/context.rs:236-283 | no lost update over many commits: a field of a stored task keeps its value through any commits whose writers did not change it since their own baselines |
| SaveCounterexamples.TornLoadLosesUpdate | crates/ajax-cli/src/context.rs:183-205 | a run in which a commit between the two reads of a load is lost by a writer that edited nothing |
| SaveCounterexamples.UnadoptedMergeLosesUpdate | crates/ajax-cli/src/web_backend.rs:291-316 | a run in which a checkpoint merges and is not adopted and the next save, adopted or not, loses what it took over, although every baseline is coherent |
| SaveCounterexamples.SaveLosesEvent | crates/ajax-cli/src/context.rs:112-116 | a run in which a save that edited nothing, from a coherent baseline, takes away an event another process stored |
| AgentStatus.SlotConflict | crates/ajax-core/src/agent_status.rs:171-184 | a slot holds more than one class and more than one source if and only if two of its observations differ in both |
| AgentStatus.ReportsConflict | crates/ajax-core/src/agent_status.rs:160-184 | the bucket loop reports a conflict if and only if two observations of one instant, neither an exit, differ in class and source |
| AgentStatus.ComputeRunActivity | crates/ajax-core/src/agent_status.rs:147-202 | a run's activity: none, a conflict, or the first best-ranked observation |
| AgentStatus.ComputeAgentStatus | crates/ajax-core/src/agent_status.rs:227-349 | the loops over runs and children compute the reduction that WhatIsShown describes |
| AgentStatus.ReducerMeaning | crates/ajax-core/src/agent_status.rs:227-349 | every phase and selection in terms of the set of unexpired observations, fully completed exactly when the primary leads with a terminal class and no direct child is busy |
| StatusShown.WhatIsShown | crates/ajax-core/src/agent_status.rs:66-75 | for every list of observations, kind by kind, what is shown of the first observation that outranks those before it and is outranked by none after, of disputed and unseen runs, and of delegated ones; and when the process counts as alive |
| AgentStatus.ReducerIsSetFunction | crates/ajax-core/src/agent_status.rs:227-349 | permuting, repeating or adding expired observations changes neither phase nor selection, and nothing at all without a tie between kinds |
| ReducerTies.ReducerIsExactlySetFunction | crates/ajax-core/src/agent_status.rs:186-202 | the whole projection is a function of the set of unexpired observations if and only if the primary is in conflict or its best-ranked observations are all shown alike |
| ReducerTies.OrderShows | crates/ajax-core/src/agent_status.rs:186-211 | two observations of which the one listed first is shown |
| CanonicalEvents.FoldState.Apply | crates/ajax-core/src/canonical_agent_event.rs:157-252 | one event updates the fold's fields as the step function says, whose phases the Told lemmas give |
| CanonicalEvents.FoldEnvelopes | crates/ajax-core/src/canonical_agent_event.rs:157-252 | the loop folds every event in order and skips heartbeats |
| CanonicalEvents.OpenTools | crates/ajax-core/src/canonical_agent_event.rs:157-252 | a tool is open if and only if the last event that concerns it is its start |
| CanonicalEvents.FoldIsWellFormed | crates/ajax-core/src/canonical_agent_event.rs:109-252 | over every event sequence: settled runs have no open tool, the blocker is the pending attention, blocked runs have attention pending or an earlier settled turn |
| CanonicalEvents.UnknownIsUntouched | crates/ajax-core/src/canonical_agent_event.rs:157-252 | a run is unknown if and only if no event gave it a phase, and then nothing in it changed |
| CanonicalEvents.PhaseNeverUnknownAgain | crates/ajax-core/src/canonical_agent_event.rs:157-252 | a phase once known is never lost, whatever follows |
| CanonicalEvents.IdleEventsDoNotCount | crates/ajax-core/src/canonical_agent_event.rs:157-252 | heartbeats and settled children can be deleted from a log without effect |
| CanonicalEvents.ObservationMeaning | crates/ajax-core/src/canonical_agent_event.rs:254-295 | a run is reported done only with no tool open, and waiting only for a pending request or a settled turn |
| EventPhases.PendingTold | crates/ajax-core/src/canonical_agent_event.rs:134-140 | a request is pending if and only if none was made, no turn started and none was answered since |
| EventPhases.FailedTold | crates/ajax-core/src/canonical_agent_event.rs:142-148 | a run has failed if and only if a turn failed and no turn, tool, request, session, child or settlement followed, nor a finish that left no tool open with nothing pending |
| EventPhases.BlockedTold | crates/ajax-core/src/canonical_agent_event.rs:157-252 | which events block a run and which unblock it |
| EventPhases.SettledTold | crates/ajax-core/src/canonical_agent_event.rs:157-252 | which events settle a run and which set it going |
| EventPhases.ActiveTold | crates/ajax-core/src/canonical_agent_event.rs:157-252 | which events make a run active and which end that |
| EventPhases.ActivityTold | crates/ajax-core/src/canonical_agent_event.rs:172-211 | a run uses a tool if and only if one was started and none was the last to finish since |
| EventPhases.OutcomeTold | crates/ajax-core/src/canonical_agent_event.rs:142-148 | the outcome is that of the last turn to settle |
| EventPhases.ReportTold | crates/ajax-core/src/canonical_agent_event.rs:254-295 | nothing is reported of a run before it has a phase, and then one lifecycle observation of the kind its events tell, fresh for half an hour, or for a year once it is done or failed |
| EventPhases.OneKindTold | crates/ajax-core/src/canonical_agent_event.rs:254-295 | the events of a run tell at most one kind |
| LaterTurns.OpenTurnLooksDoneExactly | crates/ajax-core/src/canonical_agent_event.rs:189-205 | a run whose turn is open is reported as done if and only if an earlier turn settled and a finish left no tool open with nothing pending or going since |
| LaterTurns.AnswerLeavesBlockedExactly | crates/ajax-core/src/canonical_agent_event.rs:134-140 | an answered request leaves a run blocked if and only if it was and some turn of it has settled |
| LaterTurns.OpenTurnLooksDone | crates/ajax-core/src/canonical_agent_event.rs:189-205 | a log whose open second turn is reported as done |
| LaterTurns.AnsweredLooksWaiting | crates/ajax-core/src/canonical_agent_event.rs:134-140 | a log whose answered question is reported as waiting |
| StatusLog.GroupEnvelopesByRun | crates/ajax-cli/src/agent_status_cache.rs:228-251 | the loop files every event under its run |
| StatusLog.ObservationsFromJsonl | crates/ajax-cli/src/agent_status_cache.rs:206-226 | the loop over the groups yields the log's observations |
| StatusLog.GroupingIsFiltering | crates/ajax-cli/src/agent_status_cache.rs:228-251 | the groups are exactly the log filtered by run, in log order, each run once, with the parent its first event names |
| StatusLog.ObservationsByRun | crates/ajax-cli/src/agent_status_cache.rs:206-226 | an observation is there if and only if its own run's events alone give it |
| StatusLog.ObservationsInOrder | crates/ajax-cli/src/agent_status_cache.rs:206-251 | the observations come in the order in which their runs began |
| StatusLog.InterleavingIndependence | crates/ajax-cli/src/agent_status_cache.rs:159-251 | two logs with the same events per run give the same full status |
| StatusLog.DelegatedEventsDoNotMove | crates/ajax-cli/src/agent_status_cache.rs:228-251 | events of other runs inserted anywhere leave a run's fold alone |
| StatusLog.TimeIndependence | crates/ajax-cli/src/agent_status_cache.rs:206-256 | a log's observations do not depend on the current time if and only if every reported run's latest instant fits 64 bits |
| StatusTold.WhereEventsBelong | crates/ajax-cli/src/agent_status_cache.rs:231-243 | an event belongs to the run it names with something visible and to the primary one otherwise, and a run that so names no parent was started by the primary one |
| StatusTold.LatestBoundsAll | crates/ajax-cli/src/agent_status_cache.rs:208-213 | the instant of a run bounds those of its events and is one of them |
| StatusTold.StatusTold | crates/ajax-cli/src/agent_status_cache.rs:159-226 | what is shown of a task, told from its log and wrapper: a fresh exit, else the kind the primary run's events tell while that counts, else whether delegated runs are at work; and when the process is alive |
| StatusCache.AgentStatusFiles.JsonlObservationsForStem | crates/ajax-cli/src/agent_status_cache.rs:98-124 | a hit answers from the entry and changes nothing, a miss reads and replaces the entry |
| StatusCache.RereadsExactly | crates/ajax-cli/src/agent_status_cache.rs:98-124 | however the log was changed, even cut or rewritten, a call answers from what it reads if and only if it finds another modification time or length than the stored one |
| StatusCache.CallIsCurrentUpToTime | crates/ajax-cli/src/agent_status_cache.rs:98-124 | with appends between stat and read, every call answers as recomputing at some moment of that call would, up to the current time used |
| StatusCache.CacheIsCoherent | crates/ajax-cli/src/agent_status_cache.rs:98-124 | exactly so, time included, if the instants the log held up to then fit 64 bits |
| StatusCache.StaleTimeIsCached | crates/ajax-cli/src/agent_status_cache.rs:206-256 | every log with an instant that does not fit has, for every modification time, a run whose second call answers as no moment of it would |
| StatusCache.CoherentExactlyIfTimesFit | crates/ajax-cli/src/agent_status_cache.rs:98-124 | all calls of all runs over a growing log are coherent if and only if the instants in all its beginnings fit 64 bits |
| Attention.Task.TakeAttentionTransitionAt | crates/ajax-core/src/attention.rs:30-84 | one poll updates the episode's marks, and notifies exactly when confirmed attention of a class not notified is due |
| Attention.Task.ConfirmNotifyCandidate | crates/ajax-core/src/attention.rs:162-180 | a candidate is confirmed once its mark is 15 seconds old; a missing or unreadable mark starts over |
| Attention.Task.ClearNotifyEpisodeIfQuiet | crates/ajax-core/src/attention.rs:182-204 | the last notified class is forgotten once quiet has lasted 30 seconds |
| Attention.Task.SilenceNotifyEpisode | crates/ajax-core/src/attention.rs:86-101 | silencing an actionable attention counts as having notified it |
| Attention.CoherentAlways | crates/ajax-core/src/attention.rs:30-101 | a candidate mark and a quiet mark never stand together, and a quiet mark implies a last notified class, over every run |
| Attention.ConfirmationIsSound | crates/ajax-core/src/attention.rs:30-84 | a notification comes after at least 15 seconds of nothing but attending polls of classes not notified |
| Attention.NotificationGap | crates/ajax-core/src/attention.rs:13-15 | any two notifications are at least 15 seconds apart |
| Attention.NotificationRate | crates/ajax-core/src/attention.rs:13-15 | a window of w seconds holds at most 1 + w / 15 notifications |
| Attention.RearmNeedsQuiet | crates/ajax-core/src/attention.rs:182-204 | a class notified or silenced comes again only after 30 seconds of quiet without an attending poll and 15 of confirmation |
| Attention.SameClassGap | crates/ajax-core/src/attention.rs:30-84 | two successive notifications of one class are at least 45 seconds apart and enclose such a quiet streak |
| Attention.SilencedUntilQuiet | crates/ajax-core/src/attention.rs:86-101 | after silencing, the first notification is of another class or follows 30 seconds of quiet |
| Attention.HoldNotifies | crates/ajax-core/src/attention.rs:162-180 | the first poll of a hold that is old enough notifies, and none before it |
| Attention.ConfirmationIsComplete | crates/ajax-core/src/attention.rs:30-84 | a class held by attending polls notifies exactly once if held for 15 seconds and not at all otherwise |
| AttentionHistory.QuietForgets | crates/ajax-core/src/attention.rs:182-204 | after 30 seconds of a running, idle or unknown task, unbroken by a call or a silencing, no class is remembered, whatever the marks were |
| AttentionHistory.QuietRearms | crates/ajax-core/src/attention.rs:30-84 | calls of one class that follow such quiet notify exactly once if they last 15 seconds, and not at all otherwise |
| AttentionHistory.RememberedExactly | crates/ajax-core/src/attention.rs:30-101 | the class and instant remembered are those of the last notification or silencing, unless 30 quiet seconds came after, and otherwise there is none |
| AttentionHistory.NotifiesExactly | crates/ajax-core/src/attention.rs:30-84 | a poll notifies if and only if it calls for a class not remembered and for 15 seconds every input did, or was ignored, without notifying |
| Lifecycle.TeardownIsOneWay | crates/ajax-core/src/lifecycle.rs:147-235 | no path of allowed edges leads out of teardown except by restoring a removed task |
| Lifecycle.EnteredExactly | crates/ajax-core/src/lifecycle.rs:17-31 | a transition is allowed if and only if it stays or enters its target from where, and for the reason, that may be entered |
| Lifecycle.GenericReachesExactly | crates/ajax-core/src/lifecycle.rs:186-235 | transitions without a named reason lead from one state to another if and only if it is at no earlier stage and no orphan |
| LiveApplication.Task.TransitionLifecycle | crates/ajax-core/src/lifecycle.rs:34-61 | a transition moves the lifecycle exactly when it is allowed and leaves all else |
| LiveApplication.Task.ApplyReducedObservation | crates/ajax-core/src/live_application.rs:94-192 | what an observation of each kind does to status, flags and live evidence |
| LiveApplication.Task.ApplyObservationAt | crates/ajax-core/src/live_application.rs:13-20 | a plain application reduces the observation against the current one first |
| LiveApplication.Task.ApplyAuthoritativeObservationAt | crates/ajax-core/src/live_application.rs:26-46 | an authoritative one applies it as it is and asks for Active when running |
| LiveApplication.Task.ApplyTrustedObservationAt | crates/ajax-core/src/live_application.rs:57-75 | a trusted one also asks for Reviewable when done |
| LiveApplication.Task.RetractStaleAgentRunning | crates/ajax-core/src/live_application.rs:82-92 | retracting drops the running flag and a running status, and nothing else |
| LiveApplication.FrozenLifecycles | crates/ajax-core/src/live_application.rs:9-92 | a lifecycle survives every stream of applications if and only if it is one of the six end states |
| LiveApplication.PlainKeepsLifecycle | crates/ajax-core/src/live_application.rs:13-20 | plain applications and retractions never move the lifecycle |
| LiveApplication.RunningFlagInvariant | crates/ajax-core/src/live_application.rs:94-192 | over every stream the running flag implies a running agent that needs no input, and no missing-substrate flag |
| LiveApplication.PassiveRuns | crates/ajax-core/src/live.rs:10-78 | a live observation survives every run of passive plain ones if and only if it is done, waiting, a failure, or a missing substrate still flagged |
| LiveEffects.StandsExactly | crates/ajax-core/src/live.rs:10-86 | which of two observations stands, for every two kinds and with the substrate flagged as missing or not |
| LiveEffects.FlagsAfterExactly | crates/ajax-core/src/live_application.rs:94-230 | every flag after every observation, the delegated waits that do not ask the user told apart |
| LiveEffects.AgentAfterExactly | crates/ajax-core/src/live_application.rs:94-180 | the agent's status after every observation |
| LiveEffects.LiveAfterExactly | crates/ajax-core/src/live_application.rs:174-192 | an unknown observation clears the live evidence, any other replaces it, and neither moves the lifecycle |
| LiveEffects.LifecycleAfterExactly | crates/ajax-core/src/live_application.rs:26-75 | the lifecycle after every application, from every state |
| LiveEffects.RetractExactly | crates/ajax-core/src/live_application.rs:82-92 | what a retraction takes back, and that it takes nothing else |
| LiveEffects.NeedsInputExactly | crates/ajax-core/src/live_application.rs:94-180 | over every stream the task needs input if and only if an observation that took effect asked the user, or it did from the start, and all since left that alone |
| Recovery.RecoveryContext.CreateTask | crates/ajax-core/src/registry.rs:69-91 | a task is added unless a live one has its id |
| Recovery.RecoveryContext.VisitWorktree | crates/ajax-core/src/runtime_refresh.rs:705-814 | one worktree: passed over, its task's branch corrected, or a task recovered for it |
| Recovery.RecoveryContext.VisitRepo | crates/ajax-core/src/runtime_refresh.rs:698-815 | the worktrees of one listing in order, up to the first failure |
| Recovery.RecoveryContext.RecoverMissingTasksFromSubstrate | crates/ajax-core/src/runtime_refresh.rs:683-818 | the nested loops visit every listed worktree in order, up to the first failure |
| Recovery.RecoveryKeepsConsistency | crates/ajax-core/src/runtime_refresh.rs:683-818 | live tasks with distinct repository and handle, and repository and path, still have them, and the two lists kept beside stay in step |
| Recovery.RecoveryPreservesTasks | crates/ajax-core/src/runtime_refresh.rs:727-742 | no live task is overwritten: at most its branch changes |
| Recovery.RecoveryIsIdempotent | crates/ajax-core/src/runtime_refresh.rs:683-818 | a second recovery on the same listings changes nothing, and fails if and only if the first did |
| Recovery.ListingsAreDistinct | crates/ajax-core/src/runtime_refresh.rs:698-705 | distinct repository names and distinct paths per listing visit no worktree twice |
| Recovery.VisitedExactly | crates/ajax-core/src/runtime_refresh.rs:698-705 | the worktrees visited are those of the repositories that could be listed |
| RecoveryEffects.HandleExactly | crates/ajax-core/src/runtime_refresh.rs:706-721 | a worktree belongs to a task if and only if its place is allowed and its branch is ajax/ and a handle that is not empty |
| RecoveryEffects.VisitRecovers | crates/ajax-core/src/runtime_refresh.rs:723-811 | a task's worktree is passed over if a live task has the handle, gives the live task at its path its branch, fails on a taken id, and otherwise becomes an active task of that repository, handle, branch and path |
| RecoveryEffects.OnlyRecovers | crates/ajax-core/src/runtime_refresh.rs:683-818 | every task left by a recovery is as it was, on a branch its worktree is listed with, or recovered from a listed worktree |
| RecoveryEffects.NothingMissed | crates/ajax-core/src/runtime_refresh.rs:683-818 | after a recovery that does not fail every worktree of a task has a live task with its handle, or one at its path on its branch |
| RecoveryEffects.ChangedExactly | crates/ajax-core/src/runtime_refresh.rs:692-817 | the registry is marked as changed if and only if some task changed |
| RecoveryFailure.RecoveryFailsExactly | crates/ajax-core/src/runtime_refresh.rs:744-811 | recovery fails if and only if, among the tasks there were, the id of a missing one belongs to a live task or two missing ones of different keys share an id |
| RecoveryFailure.RecoveryFailsOnTakenIds | crates/ajax-core/src/runtime_refresh.rs:744-811 | with no slash in the listed names it fails if and only if some listed worktree is refused in the tasks there were |
| RecoveryFailure.RecoveryNeverFails | crates/ajax-core/src/commands/new_task.rs:208-209 | where live ids are repository/handle and no repository has a slash in its name, recovery never fails |
| RecoveryFailure.RecoveryCanFail | crates/ajax-core/src/runtime_refresh.rs:744-811 | two listings, of repositories a and a/b, at which recovery of an empty registry fails |
| ShellWords.QuoteIsOneToken | crates/ajax-cli/src/render.rs:172-185 | a quoted word is recognised as one token, whatever follows the blank after it |
| ShellWords.QuoteRemovalUndoesQuote | crates/ajax-cli/src/render.rs:172-185 | quote removal by section 2.6.7 of the POSIX.1-2017 Shell Command Language gives the word back |
| ShellWords.ShellWordsRoundTrip | crates/ajax-cli/src/render.rs:168-185 | token recognition and quote removal give back exactly the words, if and only if none contains a NUL |
| ShellWords.ShellWordsInjective | crates/ajax-cli/src/render.rs:168-185 | distinct lists of NUL-free words print differently |
| ShellWords.PlainExactly | crates/ajax-cli/src/render.rs:172-185 | a word is printed as it is if and only if it is not empty and has plain characters only, and in single quotes otherwise |
| ShellWords.PrintsInOrder | crates/ajax-cli/src/render.rs:168-170 | lists of words print one after the other with a single blank between |
| DiffParser.KeepLine | crates/ajax-core/src/diff_review.rs:432-441 | a body line is kept and counted by its sign, or dropped |
| DiffParser.ParseHunkBody | crates/ajax-core/src/diff_review.rs:426-443 | a hunk's body runs to the next header, and the running counts grow by the signs kept |
| DiffParser.ParseHunks | crates/ajax-core/src/diff_review.rs:418-451 | the loop finds every hunk, and its two counts are the signs in them |
| DiffParser.ParseDiffSection | crates/ajax-core/src/diff_review.rs:400-461 | a section without lines or path gives nothing, any other its file |
| DiffParser.ParseUnifiedDiff | crates/ajax-core/src/diff_review.rs:371-398 | the text is cut at every header at the beginning of a line, and every section's file is kept in order |
| DiffParser.CountsMatchHunks | crates/ajax-core/src/diff_review.rs:418-461 | for every text: additions and deletions are the + and - lines kept, every kept line has exactly one of the three signs, and all are accounted for |
| DiffSections.SectionsExactly | crates/ajax-core/src/diff_review.rs:377-393 | for every text: the sections are the text from the first header that begins a line, each has that header first and no other, and there is none if and only if there is no header |
| DiffSections.KeptExactly | crates/ajax-core/src/diff_review.rs:432-441 | a hunk line is kept if and only if it starts with a blank, or with a sign but not with three of it |
| DiffSections.HeaderPathExactly | crates/ajax-core/src/diff_review.rs:463-470 | a path that a header names twice is read as it is if and only if it has no whitespace |
| DiffRoundTrip.ParseUndoesPrint | crates/ajax-core/src/diff_review.rs:371-470 | every printed patch, with blank text around it, parses to its files in order: paths, the hunks that arrive with the lines kept, and counts, trimming taking from the last file only; the status is treated by StatusIsExact |
| DiffPrinting.TrimJoined | crates/ajax-core/src/diff_review.rs:372 | trimming the end of joined lines drops the blank ones at the end and trims the last of the others |
| DiffPrinting.LinesOfBlock | crates/ajax-core/src/diff_review.rs:401-406 | lines come out of their text as they are but for a carriage return at the end of each |
| DiffExactness.RoundTripIsExact | crates/ajax-core/src/diff_review.rs:371-445 | a file's hunks come back if and only if each of their lines is one the parser keeps, none of their lines ends in a carriage return, and the text does not end in whitespace within them |
| DiffStatus.ContainsByLine | crates/ajax-core/src/diff_review.rs:406-416 | the joined body contains a mark if and only if one of its lines does |
| DiffStatus.StatusIsExact | crates/ajax-core/src/diff_review.rs:406-416 | of every printed patch, the parsed status of a file is what the lines before its hunks give if and only if no hunk header or hunk line has a mark that counts for more, and what they declare if and only if no line at all has one |
| DiffCounterexamples.HeaderLikeLineIsLost | crates/ajax-core/src/diff_review.rs:433-441 | a patch whose added line ++x is neither kept nor counted |
| DiffCounterexamples.TrailingBlankIsLost | crates/ajax-core/src/diff_review.rs:372 | a patch whose last line loses the blank at its end |
| DiffCounterexamples.BlankContextIsLost | crates/ajax-core/src/diff_review.rs:372 | a patch whose last context line, a blank one, is lost |
| DiffCounterexamples.CarriageReturnIsLost | crates/ajax-core/src/diff_review.rs:401-406 | in any patch, an added line that ends in a carriage return comes back without it |
| DiffCounterexamples.QuotedMarkChangesStatus | crates/ajax-core/src/diff_review.rs:407-416 | a patch that changes an old file and is reported as adding it |
| PullRequests.MergePullRequestLists | crates/ajax-core/src/diff_review.rs:335-357 | the merge is in canonical order and holds, for each number, the live reference or else the last stored one |
| PullRequests.MergedExactly | crates/ajax-core/src/diff_review.rs:335-357 | a request is in the merge if and only if it is the last live one of its number, or the last stored one of a number not live; open ones come first, then higher numbers |
| PullRequests.MergeIsMapUnion | crates/ajax-core/src/diff_review.rs:335-357 | merging is union of the lists as maps by number, the later list winning |
| PullRequests.MergeIsDeterministic | crates/ajax-core/src/diff_review.rs:335-357 | the order in which the hash map gives its values out does not show |
| PullRequests.MergeIsAssociative | crates/ajax-core/src/diff_review.rs:326-357 | remembering one observation after another is remembering their merge |
| PullRequests.MergeIsIdempotent | crates/ajax-core/src/diff_review.rs:326-357 | remembering an observation again changes nothing |
| PullRequests.SelectDefaultMeaning | crates/ajax-core/src/diff_review.rs:359-369 | the default is the highest open number, or the highest of all if none is open |
| PullRequests.SelectDefaultIsLast | crates/ajax-core/src/diff_review.rs:359-369 | of several with the greatest number the last listed is the default |
| PullRequests.DefaultIsHead | crates/ajax-core/src/diff_review.rs:359-369 | of a merged list it is the head |
| Supervise.EventBuffer.Retain | crates/ajax-cli/src/supervise.rs:110-126 | a full buffer drops its first output event, or its first event if none is output, and the new one goes last |
| Supervise.Receive | crates/ajax-cli/src/supervise.rs:60-76 | feeding a stream one event at a time gives the buffer the specification folds to |
| Supervise.FeedLength | crates/ajax-cli/src/supervise.rs:110-126 | after n events the buffer holds min(n, 256) |
| Supervise.FeedIsSubsequence | crates/ajax-cli/src/supervise.rs:110-126 | what is held is a subsequence of the stream that ends in its last event |
| Supervise.EvictionClosedForm | crates/ajax-cli/src/supervise.rs:110-126 | the buffer is the stream without its oldest surplus output events if and only if the stream fits or at most 255 events before its last are structured |
| Supervise.FeedInClosedForm | crates/ajax-cli/src/supervise.rs:110-126 | what is held of any stream: all but its oldest surplus output events, or, once 256 structured events came before its last, the latest 255 of them and that last |
| Supervise.StructuredStreamKeepsLast | crates/ajax-cli/src/supervise.rs:110-126 | of a stream of structured events the last 256 are held |

## Left out

- The SQLite store, files, sockets, git, tmux, gh and process spawning: the store is its history of
  registries with the position as revision, a log is a sequence of bytes and a parser for them, command
  output is a given list. Input and output failures, which only end an operation early, are not modelled.
- Ghost-task pruning and the store's own check of an empty rewrite: the store keeps the registry it is
  given, and which tasks count as persistable is an arbitrary predicate on tasks.
- Clocks: the current time is a parameter of every operation, in milliseconds or whole seconds.
- SaveProtocol.EveryCommitIsMerge: assumes `LoadsAreAtomic`, that no commit lands between the two reads
  of a load, which the code does not ensure; the counterexample shows that it is needed.
- SaveProtocol.WipesAreAuthorized: the guard's check for the state file and its read of the contents are
  one step, and the contents are those of the store at that step.
- Registry.InMemoryRegistry.ChangeLifecycle: what an update does to annotations, attempts and other
  derived facts is an arbitrary function of the task; the source recomputes them.
- Registry.InMemoryRegistry.Observe: what an observation does to the task and the lifecycle it reaches are
  parameters; `LiveApplication` models the observation itself.
- The order of `step_receipts_for_task`, error messages, and the listing functions of the registry.
- JSON encoding: a task's facts are a map from names to texts, and decoding undoes encoding.
- Integer widths: revisions, counts and line numbers are unbounded; saturation of the next revision and
  32-bit overflow of diff counts are not modelled. The 64-bit limit on instants is.
- `record_activity` (crates/ajax-cli/src/web_backend.rs:376-399), which rewrites the activity of one stored
  task, raises the revision and changes the baseline to match outside a save, is not one of the protocol's
  steps.
- The writer of the event log, and events that do not decode, which the parser given to the cache skips.
- StatusCache.CacheIsCoherent: the log only grows; a truncated or rewritten log of the same length and
  modification time is not covered. The cache of runtime snapshots is not part of this model.
- Operator status, suppression of merge-conflict and error attention, and annotations: a poll of the
  notification detector is given its status and whether it is actionable, suppressed or removing.
- Attention.Task.TakeAttentionTransitionAt: marks are whole seconds or unreadable; their text form in the
  task's metadata is not modelled.
- AttentionHistory.RememberedExactly: the clock does not run backwards between inputs, and the task starts
  without marks, as does `AttentionHistory.NotifiesExactly`; the bounds in `Attention` start from any marks.
- RecoveryEffects.NothingMissed: no worktree is listed twice, which `Recovery.ListingsAreDistinct` gives for
  distinct repository names and paths.
- LiveApplication.Task.ApplyReducedObservation: attempt records, the time of last activity and
  acknowledgement are not modelled.
- ContextSave.CliRuntimeBridge.ReloadContextIfStale: a bridge without paths, which neither reloads nor
  saves, is not modelled.
- Recovery.RecoveryContext.VisitWorktree: of a recovered task, the git, tmux and window evidence, title,
  session and flags are left out; a task is its identity, branch, worktree and lifecycle, and whether a path
  may hold one is an arbitrary predicate.
- Recovery.RecoveryContext.CreateTask: the events and receipts of a replaced task are left to
  `Registry.InMemoryRegistry.Create`.
- DiffParser.ParseDiffSection: the role of a path (signal or noise) is left out.
- DiffParser.ParseUnifiedDiff: the starts of the sections are found one after another instead of being
  collected first.
- Supervise.EventBuffer.Retain: an event is standard output, standard error or structured; the kinds of
  structured events are not told apart, as the code does not tell them apart either.
- The rest of the runtime refresh, policies, recommendations, rendering, command-line parsing, the
  cockpit and the web routes: case tables and plumbing that would only add easy members.
