# A verified model of the task control plane

The control plane turns events into decisions, runs executor attempts, and
publishes what they produce into a Project's main branch. It promises to survive
crashes at any point, cancellations that race with results, and retries of
everything. This project models the state machines and algorithms behind those
promises in Dafny and proves them, for every input, run and interleaving.

Most modules have three layers: the state and its steps as values and functions,
written after the statements of the source; methods and classes in the form of
the source, which do exactly those steps; and lemmas that state what the steps
promise over all runs. Run `dafny verify dfyconfig.toml` in this directory to
check everything.

| file | what it models |
|---|---|
| `KernelWorkflow.dfy` | the durable inbox, decision ledger and application queue, with a crash between any two store calls |
| `KernelRecords.dfy` | what becomes of every submitted event and every observation |
| `AttemptLanding.dfy` | the landing transaction of an attempt against Task and Subtask cancellation and pause, and against runs, launches and publication workers that write after an `await` |
| `Approvals.dfy` | the lives of publications, items, Subtasks and Tasks, and what has to be approved before it is done |
| `OutcomeReports.dfy` | the outcome events of landings against those that the supervisor reports under the same id |
| `CancelledWork.dfy` | what a cancelled Subtask and its attempts can still become |
| `GitPublication.dfy` | commits, three-way merges, validation, promotion, synchronisation, and the publication worker |
| `PromotionRace.dfy` | a promotion as the Git commands it consists of, with others in between |
| `PublicationStatus.dfy` | the status of a publication row, and what a cancellation makes of it |
| `RepositoryLock.dfy` | the promise chain that serialises operations on one repository |
| `WorkspaceStore.dfy` | content-addressed checkpoints and their restoration |
| `StableJson.dfy` | canonical JSON, a parser that inverts it, and what a fingerprint identifies |
| `Utf8.dfy`, `SubmissionBytes.dfy` | UTF-8 as Buffers and hashes use it, and the bytes that are hashed for a submission |
| `Lexer.dfy`, `CommandParser.dfy`, `EditDistance.dfy` | the command line: tokens, command tree, arguments, completion, suggestions |
| `TopologyLayer.dfy` | the memoised dependency layer of a Subtask |
| `WorkGraph.dfy` | approved work graph revisions and their Subtask ids |
| `AttemptSupervisor.dfy` | the concurrency slots of executor attempts |
| `AttemptCleanup.dfy` | sandbox processes, cancellation recovery, startup reconciliation and WorkUnit release |
| `Completion.dfy` | the completion envelope, its rules for acceptance, handoffs and budgets |
| `JsonLines.dfy` | the newline-delimited JSON framing |
| `AgentAvailability.dfy` | outcome histories and the availability derived from them |
| `Prelude.dfy`, `JsText.dfy` | shared result types; text as UTF-16 code units |

## What is a parameter

Kernel policy and snapshots, the effects of Runtime, SHA-256, JSON of gateway
messages, validators and candidate providers of command arguments, the locale's
collation, and the way the merge strategy resolves or refuses a conflict are
parameters of the theorems. SQLite transactions are atomic steps over
the rows they touch, with the conditions of the repositories' SQL. In
`GitPublication` a validation, a promotion and a synchronisation are one step
each, over a commit graph; `PromotionRace` takes a promotion apart into its Git
commands and shows when that makes no difference. Clocks are arguments.

## Promises that hold only under a condition

Some promises one could read into the code are not kept on all inputs. The model
keeps the code as it is. These lemmas say exactly when the promise holds, as an
if-and-only-if, or, where the text says so, give the case in which it fails.

- A cancelled Subtask stays cancelled over every run, exactly when no launch and
  no publication worker had passed its check of the row before and has yet to
  write it: `AttemptLanding.FenceHoldsIffNothingInFlight`. Both writes carry no
  condition (`src/execution/subtask-attempt-runner.ts:336`,
  `src/execution/workspace-publication-worker.ts:162`); `LaunchOutrunsCancellation`
  is such a run. What holds in any case is
  `CancelledWork.CancelledSubtaskIsNeverDelivered`. The worker's other write
  (`src/execution/workspace-publication-worker.ts:208`) is undone with its
  transaction when the publication is not being applied any more.
- Cancelling a Task fences a Subtask of it exactly when the Subtask's
  publications that can still move are of the active generation:
  `AttemptLanding.TaskFenceIffCovered`. They are in a database that is
  `Coherent`; a restart in another generation can leave one that is not:
  `WorkGraph.RestartRejoins`.
- The inbox holds the event of whoever won a landing exactly when the supervisor
  had not reported another event of the attempt before, since both use one id
  and the first one stays: `OutcomeReports.WinnersEventStandsIff`. A Task that is
  blocked while the attempt runs is enough:
  `OutcomeReports.ReportOutrunsLanding`. Such a report stands without a receipt.
  What holds in any case is `AttemptLanding.SealedOnce`, and that no report
  says completed by itself: `OutcomeReports.CompletedWasWon`.
- A cancelled Subtask gets no new publication, except from a landing of another
  Subtask whose candidate names it: `AttemptLanding.FenceMissesForeignCandidates`,
  with a witness in `AttemptLanding.ForeignCandidateLands`.
- A promotion makes main what was approved exactly when main is, at the merge,
  the commit it was when the promotion read it:
  `PromotionRace.MergeIsWhatWasApprovedIff`. A move by hand, or a second
  publication approved from the same base, can come between:
  `PromotionRace.HandMoveGetsUnderMerge`, `PromotionRace.TwoPublicationsRace`.
- A cancellation that arrives while a publication is applied does not keep the
  candidate out of main: `GitPublication.CancellationMissesFlight`.
- After a lost record the retry does not move main again, as long as moves by
  hand only extend main, but it parks the row as stale:
  `GitPublication.LostRecordMovesMainOnce`.
- After a kick there can be free slots and pending items, exactly when one of
  the items it looked at was held back: `AttemptSupervisor.KickFillsSlots`.
- After a restart the worktree adapter knows no process and `remove` throws for
  an unknown handle, so recovery settles exactly the attempts without a sandbox
  record: `AttemptCleanup.RestartSettlesOnlyUnrecorded`.
- Completing a revision restarts the numbering at 1, and a new revision 1
  overwrites exactly the Subtasks whose ids it plans again, done ones included;
  the others of the old revision 1 are in the active graph again, as they were:
  `WorkGraph.CompletionRestarts`, `WorkGraph.RestartOverwrites`,
  `WorkGraph.RestartRejoins`.
- Subtask ids of two Tasks are distinct exactly when neither id prefix starts
  with the other: `WorkGraph.TasksShareIdIff`.
- A line feed can stay in the parser's buffer after a line that is not JSON:
  `JsonLines.LineLeftInBuffer`.
- The text that arrives over a socket is the text that was sent exactly when no
  cut between Buffers goes through a character: `JsonLines.TextArrivesIff`, and
  for one message `JsonLines.CutMessageArrives`, with a garbled message in
  `JsonLines.SplitLetterIsGarbled`.
- Two submissions have the same hashed bytes exactly when plan and ids are equal
  up to lone surrogates and the line feed that joins the ids:
  `SubmissionBytes.SubmissionBytesIdentify`. Witnesses are
  `StableJson.LineFeedConfusesSubmissions` and
  `SubmissionBytes.LoneSurrogatesConfuseSubmissions`.
- Availability moves back at some later time exactly when the attempts that the
  threshold looks at are transient failures within one window and one of them is
  dated in the future: `AgentAvailability.MovesBackIff`.
- Completion and execution of a command disagree in two ways, and in no other:
  `CommandParser.CompletionTellsExecution`. A flag that is typed to its end is
  called incomplete and executes: `CommandParser.OptionNameMisleads`. The other
  one, `CommandParser.ShadowMisleads`, needs a group with a `fallbackAction`; the
  code supports it, and no command tree of the repository sets one.

## Model

| member | source | states |
|---|---|---|
| KernelWorkflow.IssuedOnce | src/storage/kernel-workflow-repo.ts:64-195 | In every schedule of submissions, ticks, crashes and recoveries, no event or decision is lost, an event never gets a second decision, and an applied application never changes, even without recovering first. |
| KernelWorkflow.StepKeeps | src/kernel/kernel-workflow.ts:106-206 | Every single store or Runtime call, submission, crash and recovery keeps inbox, ledger and application table consistent: a processed event has its decision and a decision its application. |
| KernelWorkflow.CrashesAreInvisible | src/kernel/kernel-workflow.ts:113-206 | If Runtime is idempotent per decision and each crash is followed by recovery, then inbox, ledger and applications are those of some process that got the same submissions in the same order and never crashed; and so are the effects once nothing is open. |
| KernelWorkflow.Simulate | src/kernel/kernel-workflow.ts:131-206 | The simulation behind it: any crashing run can be followed, step by step, by a crash-free run with the same submissions. |
| KernelWorkflow.StaysSerial | src/kernel/kernel-workflow.ts:131-163 | Over runs that recover first, no event is claimed while an application is unfinished, and at most one application is unfinished. |
| KernelRecords.InboxIsAccountedFor | src/storage/kernel-workflow-repo.ts:34-195 | In every schedule of submissions, ticks, crashes and recoveries: the observation of each applied application and each submitted event is in the inbox, pending from its occurrence or its submission on when it was new; the inbox holds nothing else, and no row of it is lost. |
| KernelRecords.StepBrings | src/kernel/kernel-workflow.ts:106-206 | What one step adds to the inbox: a submission its event, an application that becomes applied its observation, and every other step nothing. |
| KernelWorkflow.DurableKernelWorkflow.Enqueue | src/storage/kernel-workflow-repo.ts:34-62 | A new event is pending from now on; one that is known already changes nothing. |
| KernelWorkflow.DurableKernelWorkflow.ReconcileProcessing | src/storage/kernel-workflow-repo.ts:196-218 | Afterwards nothing is in flight: an event that was processing is processed when it has a decision and pending when it has none, an application that was being applied is to be applied again, and nothing else changes. |
| KernelWorkflow.DurableKernelWorkflow.FindFirstToApply | src/storage/kernel-workflow-repo.ts:125-140 | Returns the first recoverable application in creation order, or none exactly when there is none. |
| KernelWorkflow.DurableKernelWorkflow.ClaimNext | src/storage/kernel-workflow-repo.ts:64-91 | Claims, of the pending events that are available now, the first by availability, then by occurrence, then by id; or none exactly when no pending event is available. Nothing else changes. |
| KernelWorkflow.DurableKernelWorkflow.Apply | src/kernel/kernel-workflow.ts:165-206 | Mark applying, call Runtime, record: three steps of the machine. After an answer the application is applied with the observation it brought, which is in the inbox, pending from when it occurred if it was new; after any exception it is uncertain and the inbox is as it was. |
| KernelWorkflow.DurableKernelWorkflow.Decide | src/kernel/kernel-workflow.ts:146-160 | Claim, decide and issue are two steps of the machine without a gap: the first available event is processed, its decision is in the ledger with an application that is issued, and nothing else changes. |
| KernelWorkflow.DurableKernelWorkflow.Drain | src/kernel/kernel-workflow.ts:131-163 | The drain ends, is a run of the machine by ticks alone, loses nothing, fails exactly when it has handled 100 decisions, and stops before only when nothing is left to do or an application is uncertain. |
| AttemptLanding.SealedOnce | src/execution/attempt-terminal-service.ts:49-173 | In every interleaving of landings, reports, cancellations, pauses, launches and publications, each receipt comes with a settled dispatch item and an outcome event of its attempt, each event that says completed comes with a receipt that says so, and neither receipts nor events ever change. |
| AttemptLanding.LandsIff | src/execution/attempt-terminal-service.ts:49-128 | When a landing commits, in the fields of its rows: the item is there without a receipt and the identities agree; unless a cancellation has won, the Subtask has the expected status; and where the executor has won, the Task runs and the candidate or the repair can be stored. |
| AttemptLanding.FaultTells | src/execution/attempt-terminal-service.ts:49-168 | Each way in which a landing is refused, with what is then wrong in its rows. |
| AttemptLanding.WinnerDecides | src/execution/attempt-terminal-service.ts:78-173 | Whoever wins decides what a landing writes, row by row. The executor: the Subtask takes the next status and error, its candidate is stored awaiting approval or its repair is pending with the new candidate, and event and receipt are its own, for a success and for a failure. A cancellation keeps Subtask, publications and receipt and rewrites the event; a pause puts the Subtask back and rewrites event and receipt. The item ends, no other row changes, and the inbox takes the event exactly when it has no other of that id. |
| AttemptLanding.TaskFenceIffCovered | src/execution/task-cancellation-coordinator.ts:91-137 | Cancelling a Task cancels every unfinished Subtask of the active graph, and leaves nothing of it that an approval could move if and only if its publications that still can are of the Task and of the active generation. |
| AttemptLanding.TaskCancellationWrites | src/execution/task-cancellation-coordinator.ts:84-137 | Every row that cancelling a Task writes and what it becomes: the Task, the unfinished Subtasks of the active graph, and the items and publications of the Task and the active generation; no other row. |
| AttemptLanding.SubtaskCancellationWrites | src/execution/task-cancellation-coordinator.ts:139-201 | The same for cancelling Subtasks, which commits exactly when the active revision and each expected row are as expected. |
| AttemptLanding.TaskCancellationFences | src/execution/task-cancellation-coordinator.ts:91-137 | Where publications belong to their Subtask's generation and active Subtasks to the active one: cancelling a Task cancels and fences every unfinished Subtask of the active graph, leaves the set of done Subtasks as it is and touches no other Task. |
| AttemptLanding.SubtaskCancellationFences | src/execution/task-cancellation-coordinator.ts:139-194 | Where publications belong to their Subtask's generation: cancelling Subtasks fences exactly the named rows and changes no other Subtask. |
| AttemptLanding.FenceHolds | src/execution/attempt-terminal-service.ts:85-160 | Where publications belong to their Subtask: a fenced Subtask of which no launch and no publication worker is in flight stays cancelled over every run of transactions, launches, reports, workers and crashes; no publication of it is created, repaired, approved or reopened, and nothing of it comes into flight again. |
| AttemptLanding.FenceHoldsIffNothingInFlight | src/execution/subtask-attempt-runner.ts:258-336 | Where publications belong to their Subtask: some run un-cancels a fenced Subtask if and only if a launch that passed its status check, or a publication worker, is still in flight for it. |
| AttemptLanding.LaunchOutrunsCancellation | src/execution/subtask-attempt-runner.ts:263-336 | The run that does it: a launch passes its check, the Task is cancelled, and the launch makes the cancelled Subtask run again. |
| AttemptLanding.InFlightBreaksFence | src/execution/workspace-publication-worker.ts:157-163 | Any such write in flight, of a launch or of a worker that parks a stale row, breaks the fence in one action. |
| AttemptLanding.CancelledAttemptIsSilent | src/execution/attempt-terminal-service.ts:78-168 | An attempt whose dispatch item is cancelling or cancelled stays so over every run, and none of its landings moves a Subtask or creates or repairs a publication, even when a launch in flight has rewritten the status. |
| CancelledWork.CancelledSubtaskIsNeverDelivered | src/execution/attempt-terminal-service.ts:78-168 | A Subtask whose Task has ended, or whose attempts are cancelled, landed, or at an end without a receipt, and that gets no new attempt, is never done and never awaits integration again over any run, and its publications stay as they are, whatever writes of its row were in flight. |
| CancelledWork.RunsStayKnown | src/execution/attempt-supervisor.ts:98-114 | Over every run, a dispatch item is terminal while its run is under way only after the run's own landing. |
| OutcomeReports.InboxIsFirstOffered | src/storage/kernel-workflow-repo.ts:284-310 | Over every run the inbox holds, under each id, the first event that a landing or a report offered. |
| OutcomeReports.WinnersEventStandsIff | src/execution/attempt-supervisor.ts:105-114 | At all times after a landing its receipt stands, and the inbox holds the winner's event if and only if the supervisor had not reported another event under that id before; otherwise it holds the first report. |
| OutcomeReports.CompletedWasWon | src/execution/kernel-execution-runtime.ts:895-1016 | Over every run, an outcome event that says completed was written by a landing that the executor won. |
| OutcomeReports.ReportOutrunsLanding | src/execution/kernel-execution-runtime.ts:1038-1054 | The run in which it is not so: the Task is blocked, the landing fails, the failed launch is reported without a receipt, and after unblocking the attempt is landed as lost while the inbox keeps the report. |
| CancelledWork.TaskCancellationSilences | src/execution/task-cancellation-coordinator.ts:91-137 | In a coherent database cancelling a Task does this to every unfinished Subtask of the active graph. |
| CancelledWork.SubtaskCancellationSilences | src/execution/task-cancellation-coordinator.ts:139-194 | In a coherent database, for attempts dispatched under their Subtask's Task and generation: cancelling Subtasks does this to each of them, also where the supervisor had made an attempt terminal without a receipt. |
| AttemptLanding.LandingRespectsFence | src/execution/attempt-terminal-service.ts:85-160 | A landing of a fenced Subtask is lost to the cancellation. |
| AttemptLanding.FenceMissesForeignCandidates | src/execution/attempt-terminal-service.ts:107-128 | A fenced Subtask gets a new publication from a landing if and only if the executor wins for another Subtask and its candidate names the fenced one. |
| AttemptLanding.ForeignCandidateLands | src/execution/attempt-terminal-service.ts:107-128 | A landing that publishes for another, cancelled Subtask exists. |
| Approvals.PublicationMoves | src/storage/workspace-publication-repo.ts:106-444 | Every move of a publication over every action: who makes it, from which status to which, and that nothing else of the row changes, except for candidate and request where a repair or a new request replaces them. |
| Approvals.DueMovesAreMade | src/storage/workspace-publication-repo.ts:212-444 | Each move of an answer, a worker or a recovery is made when the row has its status. |
| Approvals.ClearedWasApproved | src/execution/workspace-publication-worker.ts:107-247 | Over every run: a publication that is pending, applying, conflicted, parked, integrated, cancelling or uncertain had its present request approved while it awaited approval, or was so when the run began. A new request after a conflict of bases needs a new approval. |
| Approvals.DoneWasApproved | src/execution/workspace-publication-worker.ts:120-200 | Over every run: a Subtask is done only if it was so at the start, or a worker finished a publication of it whose request had been approved. |
| Approvals.SubtaskWrites | src/storage/subtask-repo.ts:136-160 | What every action makes of a Subtask's row: landings, cancellations, answers, launches, workers and recovery, each with its condition. |
| Approvals.ItemIsWritten | src/storage/kernel-dispatch-item-repo.ts:144-287 | What every action makes of a dispatch item, with the status it must have and the error it leaves. |
| Approvals.TaskIsWritten | src/task/task-engine.ts:10-19 | What every action makes of a Task: a move exactly along the table of transitions, read from its targets, and a cancellation. |
| Approvals.EndedTasksStay | src/task/task-engine.ts:10-130 | Over every run a cancelled Task stays cancelled and an archived one archived. |
| Approvals.WhoIsInFlight | src/execution/subtask-attempt-runner.ts:258-336 | A worker, a run and a launch are in memory exactly from the claim or check that starts them until they report, end, write or die. |
| AttemptLanding.ControlPlane.Land | src/execution/attempt-terminal-service.ts:49-173 | The transaction fails with the first fault in the order of its checks and then changes nothing, or commits all rows of the landing at once. |
| AttemptLanding.ControlPlane.CancelTask | src/execution/task-cancellation-coordinator.ts:84-137 | Commits exactly when the expected generation is active and the Task can be cancelled; returns the cancelled Subtasks, and exactly the attempts of the Task and generation that were launching, launched or uncertain, which are cancelling now. |
| AttemptLanding.ControlPlane.CancelSubtasks | src/execution/task-cancellation-coordinator.ts:139-201 | Commits exactly when every expected row has its expected status in the expected revision; otherwise nothing changes, and the reason is the Task, the revision or the rows, in this order. |
| GitPublication.BaseOfDescendant | src/execution/managed-git-workspace.ts:188-215 | The only best merge base of a commit and its descendant is the commit itself. |
| GitPublication.MergeOfDescendant | src/execution/managed-git-workspace.ts:217-244 | Merging a descendant without fast-forward never conflicts, has parents main and candidate, and takes exactly the candidate's tree. |
| GitPublication.MergeKeepsEachSidesChanges | src/execution/managed-git-workspace.ts:246-281 | A three-way merge that succeeds keeps, path by path, the side that changed. |
| GitPublication.MergeIff | src/execution/managed-git-workspace.ts:246-281 | A merge of two commits with one best merge base, neither of which contains the other, conflicts exactly at the paths that both changed, differently, and that do not blend; else it is a commit of both with the changed side, or the blend, at each path. |
| GitPublication.ManagedGitWorkspaceService.ValidateExecutorCandidate | src/execution/managed-git-workspace.ts:188-215 | Accepts a candidate exactly when its worktree is there, on its branch and clean, the Project directory is on main and clean, and the candidate contains the current main; reports exactly the paths at which the trees differ, or the first fault. |
| GitPublication.ManagedGitWorkspaceService.PromoteCandidate | src/execution/managed-git-workspace.ts:217-244 | Succeeds exactly when the Project directory is on main and clean, main is the approved base and the candidate contains it; else it names the first fault and leaves the repository alone. Main is then a commit whose first parent is the approved base and whose tree is the candidate's. |
| GitPublication.ManagedGitWorkspaceService.SynchronizeCandidate | src/execution/managed-git-workspace.ts:246-281 | On success the worktree's head contains main, the approved candidate and its old head, as it was or by one merge commit of old head and main, and exactly the paths at which it differs from main are reported; a failure changes nothing and names the first fault; main never moves. |
| GitPublication.RunKeeps | src/execution/workspace-publication-worker.ts:107-247 | Over every run of worker steps, answers, cancellations, Git failures also after a promotion, crashes and moves of main by hand, rows and repository stay consistent: candidates contain their base, and every integrated row has its promotion. |
| GitPublication.RowMoves | src/storage/workspace-publication-repo.ts:212-444 | Every write of a row over every step of this machine, with its condition; a row comes only as a validated candidate that awaits approval. |
| GitPublication.CallsMove | src/execution/workspace-publication-worker.ts:107-200 | Which publish calls are running after a step, and how far they have come. |
| GitPublication.ApprovalsGrow | src/storage/workspace-publication-repo.ts:237-243 | A request counts as approved exactly from the approval of a row that awaits it. |
| GitPublication.MainMovesOnlyByApproval | src/execution/workspace-publication-worker.ts:120-200 | With a promotion as one step: apart from moves by hand, main changes only by promoting an approved candidate from the very base that was approved, to one new commit on top of it with its tree. |
| GitPublication.MainOnlyGrows | src/execution/workspace-publication-worker.ts:107-247 | While moves by hand only extend main, old main and every integrated candidate and integration stay ancestors of main over every run. |
| GitPublication.OneMovePerBase | src/execution/workspace-publication-worker.ts:107-200 | With a promotion as one step, and while moves by hand only extend main: whatever crashes and is retried, two promotions of one approval or from one base never both move main. |
| GitPublication.FencedNeverLands | src/storage/workspace-publication-repo.ts:374-420 | A publication that is denied, or cancelled with no publish call under way, is never promoted later. |
| GitPublication.CancellationMissesFlight | src/execution/workspace-publication-worker.ts:150-200 | A cancellation during publication keeps the candidate out of main if and only if the promotion is refused anyway; the row then stays cancelling. |
| GitPublication.LostRecordMovesMainOnce | src/execution/workspace-publication-worker.ts:107-200 | While moves by hand only extend main: after an approval moved main it is never promoted again, whatever runs between, crash and lost record included; trying it leaves main alone and parks the row. |
| GitPublication.EmptyPromotionMovesNothing | src/execution/managed-git-workspace.ts:237-242 | An approval whose candidate is its base moves nothing, however often it is promoted. |
| GitPublication.SyncAfterLanding | src/execution/managed-git-workspace.ts:246-281 | Synchronising a worktree whose candidate is already in main never conflicts, and the new candidate changes nothing in main. |
| GitPublication.PassesIsRun | src/execution/workspace-publication-worker.ts:107-118 | A recorded sequence of the worker's states is a run of the machine, so every theorem about runs applies to the worker. |
| PromotionRace.UninterruptedIsOneStep | src/execution/managed-git-workspace.ts:217-244 | With nothing between its Git commands a promotion is the one step of the publication machine, with the same faults and the same repository. |
| PromotionRace.MergeIsWhatWasApprovedIff | src/execution/managed-git-workspace.ts:226-240 | Over every run in which others act between the commands: a merge that moves main puts one commit with the candidate's tree on the approved base if and only if main is then the commit that the promotion had read. |
| PromotionRace.HandMoveGetsUnderMerge | src/execution/managed-git-workspace.ts:226-240 | A move of main by hand between check and merge, to another commit the candidate contains, gives a merge on a base that nobody approved. |
| PromotionRace.TwoPublicationsRace | src/execution/managed-git-workspace.ts:226-240 | Of two publications approved from one base that both passed their checks, the first moves main as approved and the second moves it again, unapproved, if and only if their merge succeeds. |
| PromotionRace.RunKeeps | src/execution/managed-git-workspace.ts:217-244 | Over every run a promotion that passed its checks has a candidate that contains its approved base. |
| GitPublication.WorkspacePublicationWorker.FindNextBlocking | src/storage/workspace-publication-repo.ts:201-210 | Returns, of the blocking rows of the generation, one of least topology layer, among those of least dispatch order, and among those of least Subtask; or none exactly when no row blocks. |
| GitPublication.WorkspacePublicationWorker.RecoverInterrupted | src/storage/workspace-publication-repo.ts:212-227 | Makes exactly the interrupted rows of the generation pending again, unless their Task is cancelled. |
| GitPublication.WorkspacePublicationWorker.Publish | src/execution/workspace-publication-worker.ts:120-247 | A row whose Subtask was cancelled is cancelled; one without receipt throws and stays as it is; a repository off main or with changes throws and leaves the row applying; otherwise the row is integrated when main is still the approved base, and parked, with a synchronised candidate where that succeeds, when it is not. |
| GitPublication.WorkspacePublicationWorker.DrainSerial | src/execution/workspace-publication-worker.ts:107-118 | Ends; the layers of its outcomes never fall, and no row is published while a blocking one of a lower layer is left; unless it throws, it stops only when no row blocks or the first blocking row is not pending. |
| GitPublication.NoneOvertakes | src/storage/workspace-publication-repo.ts:201-210 | Where layers rise along dependencies, a drain publishes nothing while a publication that it depends on is still to come or still blocks. |
| RepositoryLock.MutualExclusion | src/execution/managed-git-workspace.ts:291-311 | At most one operation runs on a repository at any time. |
| RepositoryLock.StartedInOrder | src/execution/managed-git-workspace.ts:291-311 | An operation starts only after every earlier one on its repository has finished, failed or not. |
| RepositoryLock.OnlyHeadProceeds | src/execution/managed-git-workspace.ts:291-311 | Of the unfinished calls on a repository only the first may run; all others wait on a promise that is not settled. |
| RepositoryLock.EntryIffInUse | src/execution/managed-git-workspace.ts:291-311 | The map holds a repository's entry exactly while some operation on it is queued or running, and the entry is the last of them. |
| RepositoryLock.RepositoryOperations.Enter | src/execution/managed-git-workspace.ts:291-300 | A call joins the end of its repository's queue and no other queue changes. |
| RepositoryLock.RepositoryOperations.Begin | src/execution/managed-git-workspace.ts:298-304 | Starting leaves all queues as they are. |
| RepositoryLock.RepositoryOperations.Leave | src/execution/managed-git-workspace.ts:303-310 | The head leaves its queue, also after a failure, and no other queue changes. |
| WorkspaceStore.RestoreYieldsTreeIffKept | src/execution/workspace-store.ts:204-227 | Restoring a manifest yields the scanned tree without its `.git` entries if and only if the store still holds every scanned content. |
| WorkspaceStore.RestoreAfterHistory | src/execution/workspace-store.ts:171-292 | It does so after any number of later checkpoints of any workspaces and removals of other objects, as long as no scanned content collides with one of the tree's. |
| WorkspaceStore.HarmlessKeeps | src/execution/workspace-store.ts:275-292 | One later checkpoint or removal that does not hit the tree's hashes keeps all of its contents. |
| WorkspaceStore.CheckpointKeeps | src/execution/workspace-store.ts:244-292 | A checkpoint leaves all of its contents in the store when no two of them collide. |
| WorkspaceStore.PlacesIff | src/execution/workspace-store.ts:204-227 | One entry: it faults at a file without a hash, at an object that is missing or whose hash or size differs, and at an item in the way, and at nothing else; otherwise its path holds the directory or the object's content, directories are made above it, and all other items stay. |
| WorkspaceStore.RebuiltInOrder | src/execution/workspace-store.ts:204-227 | A restore places the entries in order and stops at the first that cannot be placed, with the tree as it is by then. |
| WorkspaceStore.WorkspaceStore.StoreObject | src/execution/workspace-store.ts:275-292 | The object directory holds the content under its hash, and nothing else changes. |
| WorkspaceStore.WorkspaceStore.Visit | src/execution/workspace-store.ts:244-273 | The recursive scan lists exactly the visible items below a directory, each once, and stores exactly their contents; it fails at a visible symlink or special file. |
| WorkspaceStore.WorkspaceStore.CreateCheckpoint | src/execution/workspace-store.ts:171-202 | Fails exactly when the tree has a visible symlink or special file, and then writes no manifest; otherwise the manifest covers the tree without `.git`. |
| WorkspaceStore.WorkspaceStore.RestoreCheckpoint | src/execution/workspace-store.ts:204-227 | A foreign manifest changes nothing; otherwise the workspace becomes what the entries rebuild, also when it stops half-way. |
| StableJson.ParseInvertsStable | src/planning/planner-proposal.ts:73-78 | The canonical text of any JSON value is read back, by a parser for the grammar of RFC 8259, as the value with its object keys in order. |
| StableJson.StringRoundTrip | src/planning/planner-proposal.ts:73-78 | Escaping a string, with lone surrogates and control characters, is inverted by reading it. |
| StableJson.SameTextIffSameValue | src/planning/planner-proposal.ts:73-78 | Two JSON values have the same text if and only if they are equal up to the order of object members. |
| StableJson.SameIffCanonical | src/planning/planner-proposal.ts:73-78 | Two values are equal up to member order if and only if sorting their keys makes them equal. |
| StableJson.SameElementsSortAlike | src/planning/planner-proposal.ts:76-77 | Members with distinct keys sort to one list, however they were inserted. |
| StableJson.SortSorts | src/planning/planner-proposal.ts:76-77 | The members of the text stand in strictly ascending order of their keys' UTF-16 code units. |
| StableJson.LessIff | src/planning/planner-proposal.ts:76-77 | The order of keys: a string stands before those that go on behind it, and otherwise the first unit in which two strings differ decides. |
| StableJson.EscapeSpells | src/planning/planner-proposal.ts:73-78 | How each unit is written: quotes, backslashes and five control characters by a letter, other control characters and lone surrogates by four digits of their value, all else as it is. |
| StableJson.NumberIsWritten | src/planning/planner-proposal.ts:73-78 | A number token is a sign, digits without leading zeros, a fraction and an exponent, as in section 6 of RFC 8259. |
| StableJson.WrittenIsNumber | src/planning/planner-proposal.ts:73-78 | And every text of that grammar is a number token. |
| StableJson.SubmissionTextIdentifies | src/planning/planner-proposal.ts:59-71 | The text that is hashed for a submission identifies the plan always, and session and turn exactly up to the line feed that joins them. |
| StableJson.LineFeedConfusesSubmissions | src/planning/planner-proposal.ts:63-71 | Two submissions with different session ids have one hashed text. |
| SubmissionBytes.SubmissionBytesIdentify | src/planning/planner-proposal.ts:63-71 | The UTF-8 bytes that are hashed are equal if and only if the plans are equal up to member order and the joined ids up to lone surrogates. |
| SubmissionBytes.StableIsWellFormed | src/planning/planner-proposal.ts:73-78 | Canonical text holds no lone surrogate, whatever strings the value holds. |
| SubmissionBytes.LoneSurrogatesConfuseSubmissions | src/planning/planner-proposal.ts:63-71 | Session ids that differ in a lone surrogate are hashed alike. |
| Lexer.LexCommand | src/commands/catalog.ts:252-290 | The tokens start outside space, hold space only when quoted or escaped, end at plain space or the end of input, have only space between them, and decode on their own to the value given. |
| Lexer.DecodeToken | src/commands/catalog.ts:221-250 | The value is what the quote and escape modes contribute unit by unit; closed says that no quote is open. |
| Lexer.SpelledIsDecoded | src/commands/catalog.ts:221-250 | By a grammar of quotations and symbols, bare or after a backslash: a text that is spelled by it is decoded to its units without quotes and backslashes, and is open exactly where the grammar leaves it. |
| Lexer.EveryTextIsSpelled | src/commands/catalog.ts:221-250 | Every text has such a grammar. |
| Lexer.SliceAgrees | src/commands/catalog.ts:257-262 | Decoding a token's slice by itself goes through the very modes the lexer was in. |
| Lexer.OneTokenization | src/commands/catalog.ts:252-290 | No other list of tokens meets that description of an input. |
| Lexer.OnlyLastIsOpen | src/commands/catalog.ts:264-290 | Every token but the last closes its quotes and is followed by space. |
| Lexer.LexingInvertsRendering | src/commands/catalog.ts:221-290 | Any list of strings, rendered with backslash escapes (`""` for the empty one) and joined by spaces, is lexed back to that list. |
| CommandParser.ParseAction | src/commands/catalog.ts:609-702 | The two loops compute the grammar's reading or its first error; allowing an incomplete command changes only how a missing value or argument is reported. |
| CommandParser.ReadTokens | src/commands/catalog.ts:616-651 | The loop over the tokens stops at the first token that can have no role, and else collects options by key and positional tokens in order. |
| CommandParser.AssignArguments | src/commands/catalog.ts:653-694 | The loop over the arguments cuts the positional tokens into one stretch per argument, or reports the first argument that fails, or what is left over. |
| CommandParser.ParsesIffAssignable | src/commands/catalog.ts:609-702 | A command parses if and only if there is an assignment: a role for every token and a stretch of the positional tokens for every argument, with nothing left. |
| CommandParser.AssignmentIsParse | src/commands/catalog.ts:609-702 | An assignment is unique, and the parsed arguments are its own. |
| CommandParser.FailureExplains | src/commands/catalog.ts:609-702 | A parse that fails reports what is wrong: the first token that cannot be read, because no option has its name, the option was given, or its value is missing or refused; or the first argument that is missing or refuses a value; or the values that are left over. |
| CommandParser.TokensAreConserved | src/commands/catalog.ts:609-702 | A successful parse gives each token exactly one role and loses nothing: each argument holds its own stretch in order, and each option is present exactly when given, with all its values in order. |
| CommandParser.GivenOnce | src/commands/catalog.ts:629-632 | In a successful parse only a repeatable option occurs twice. |
| CommandParser.OptionKeyIsCamelled | src/commands/catalog.ts:316-318 | The key of an option is its name without the two dashes; each further hyphen before a lower-case letter goes and the letter becomes a capital. |
| CommandParser.ResolvePath | src/commands/catalog.ts:563-607 | The loop returns the one walk that `CommandParser.WalkIffSpelled` describes. |
| CommandParser.WalkIffSpelled | src/commands/catalog.ts:563-607 | A walk is the one that the names spell: it follows children, each the first of its place with the token's name, to the action with the next name, to the fallback of a group where no child has it, to an unknown token where there is none, or to the end of the tokens; and there is one such walk only. |
| CommandParser.HelpIffSpelled | src/commands/catalog.ts:830-858 | A help path is invalid exactly when its names lead through no groups, and executable exactly when nothing more is typed, or the name of a child. |
| CommandParser.WalkOfPrefix | src/commands/catalog.ts:563-607 | Tokens typed later do not change where the first ones lead. |
| CommandParser.Execute | src/commands/catalog.ts:522-561 | The line is the input without the space at both ends. It is no command exactly without a leading slash; it is refused when a quote stays open; otherwise what runs is the action that the values of its tokens spell, with what the values behind the action parse to, what is rejected is that action with a reason that explains it, and unresolved are exactly the values that spell no action. |
| CommandParser.Complete | src/commands/catalog.ts:446-520 | At every cursor, which is moved into the text: the values of the tokens that end before the one the cursor touches, and what is typed of that one, decide the state. A walk to an unknown token is invalid; at a place of the tree a child action, or the fallback with what is typed, makes it executable; and in an action it is that of `CompleteAction` or of the help path. |
| CommandParser.CompleteAction | src/commands/catalog.ts:704-816 | Its own loop over the completed tokens decides whether an option's value is expected; the state is that of parsing with the prefix, incomplete for a prefix typed as an option. |
| CommandParser.ActionStateTellsParse | src/commands/catalog.ts:704-816 | Inside an action, executable means exactly that parsing now succeeds and the last token is not typed as an option's name. |
| CommandParser.StateBetweenTokens | src/commands/catalog.ts:704-816 | With nothing more typed, and for an action whose options have distinct names, completion says exactly what parsing the completed tokens gives: executable, incomplete when a value or an argument is missing, and invalid otherwise. |
| CommandParser.CompletionTellsExecution | src/commands/catalog.ts:446-561 | At the end of a trimmed command with closed quotes and a last token that is not empty, completion says executable if and only if execution gets past the parser and the last token is not typed as an option's name, or the prefix names a child of a group whose fallback takes it. |
| CommandParser.ShadowMisleads | src/commands/catalog.ts:497-511 | With such a group, completion says executable for a command that does not execute. |
| CommandParser.OptionNameMisleads | src/commands/catalog.ts:704-816 | A flag typed to its end is called incomplete, for a command that executes. |
| EditDistance.Levenshtein | src/commands/catalog.ts:292-306 | The table-filling loops return the edit distance of any two strings. |
| EditDistance.DistanceIsShortestScript | src/commands/catalog.ts:292-306 | The distance is the length of a shortest script of insertions, deletions and replacements: one of that length exists and none is shorter. |
| EditDistance.ScriptsAreNotShorter | src/commands/catalog.ts:298-303 | No script of single edits is shorter than the distance. |
| EditDistance.NearAfterEdit | src/commands/catalog.ts:298-303 | One edit anywhere changes the distance to any third string by at most one. |
| EditDistance.DistanceIsMetric | src/commands/catalog.ts:292-306 | Zero only for equal strings, symmetric, and it meets the triangle inequality. |
| EditDistance.NearestNodeIsLeast | src/commands/catalog.ts:308-314 | A name is suggested exactly when one is within max(2, half the length), and then it is least by distance and, among those, by collation. |
| TopologyLayer.DeriveTopologyLayer | src/execution/subtask-attempt-runner.ts:1239-1259 | Throws if and only if a dependency cycle is reachable from the Subtask; otherwise returns the length of its longest dependency path. |
| TopologyLayer.Derivation.VisitEach | src/execution/subtask-attempt-runner.ts:1249-1253 | The reduce over the dependencies gives one more than the largest of their layers, or zero, and meets a cycle only if there is one. |
| TopologyLayer.Derivation.Visit | src/execution/subtask-attempt-runner.ts:1243-1257 | The memoised visit ends, keeps only right layers in the memo, and leaves the visiting set as it was unless it throws. |
| TopologyLayer.LayersIncrease | src/execution/subtask-attempt-runner.ts:1239-1259 | Layers strictly increase along every dependency, whichever Subtask each call started from. |
| TopologyLayer.LayerIsUnique | src/execution/subtask-attempt-runner.ts:1239-1259 | A Subtask's layer depends on the graph alone. |
| TopologyLayer.CyclePumps | src/execution/subtask-attempt-runner.ts:1245-1246 | Where a cycle is reachable there are paths of every length, so no layer exists. |
| WorkGraph.StableSubtaskId | src/execution/work-graph-runtime-service.ts:243-258 | The suffix search ends with an unused id of the revision: the normalised one, or the one with the least free suffix. |
| WorkGraph.BuildSubtaskIdMap | src/execution/work-graph-runtime-service.ts:236-241 | Distinct proposal ids get distinct Subtask ids, all naming the revision. |
| WorkGraph.PlanSubtasks | src/execution/work-graph-runtime-service.ts:144-220 | The stored Subtasks of a closed proposal are the same graph under new ids, ready, with every body and dependency detail kept. |
| WorkGraph.NormalizedNamesRevision | src/execution/work-graph-runtime-service.ts:260-264 | The prefix of a revision stands once in front of a normalised id: an id that has it stays, and any other gets it before its safe form. |
| WorkGraph.PrefixSpells | src/execution/work-graph-runtime-service.ts:260-262 | The prefix is the Task's id, `_r`, the revision in decimal without leading zeros, and `_`. |
| WorkGraph.SafeIdIsKept | src/execution/work-graph-runtime-service.ts:262-264 | The safe form keeps the letters, digits, underscores, colons and hyphens of an id and puts one underscore for each run of other units, drops the underscores at both ends, and is `subtask_execute` when nothing is left. |
| WorkGraph.IdNamesOneRevision | src/execution/work-graph-runtime-service.ts:260-264 | No id names two revisions of a Task. |
| WorkGraph.NewIdsAreNew | src/execution/work-graph-runtime-service.ts:144-220 | The ids of a new revision are disjoint from those of every other revision. |
| WorkGraph.WorkGraphRuntimeService.Apply | src/execution/work-graph-runtime-service.ts:31-98 | Accepts exactly the next revision of the active generation, or an initial first one where none is active; names the exact reason otherwise and writes nothing. On acceptance the new revision is the only active one, unfinished Subtasks of the one before are cancelled, each planned Subtask is stored, in the place of a row that had its id, and no other row changes. |
| WorkGraph.AcceptedIsNext | src/storage/work-graph-revision-repo.ts:40-90 | While no revision is completed, an accepted revision is the next number, in the same generation. |
| WorkGraph.SubtasksAfterApply | src/execution/work-graph-runtime-service.ts:120-220 | While no revision is completed: accepting a revision leaves done Subtasks alone, cancels every unfinished one of the superseded revision, and adds exactly the planned rows. |
| WorkGraph.ApplyExtendsChain | src/storage/work-graph-revision-repo.ts:40-90 | An accepted revision is the only active one and those before it are superseded. |
| WorkGraph.RevisionsRiseByOne | src/execution/work-graph-runtime-service.ts:31-98 | Over every run until a completion, revisions are 1, 2, ... of one generation and rise by one with each accepted proposal. |
| WorkGraph.CompletionRestarts | src/storage/work-graph-revision-repo.ts:40-90 | After a completion exactly an initial revision 1 is accepted, in any generation, and it overwrites the row of the first revision. |
| WorkGraph.RestartOverwrites | src/storage/subtask-repo.ts:62-98 | A revision 1 without an active revision overwrites exactly the Subtasks whose ids it plans again, all of the first revision, done ones included, and makes them ready. |
| WorkGraph.RestartRejoins | src/storage/subtask-repo.ts:113-124 | After the restart the active graph holds exactly the planned Subtasks and those of the old revision 1; the latter keep status and generation where they are not planned again. |
| WorkGraph.TasksShareIdIff | src/execution/work-graph-runtime-service.ts:260-264 | Revisions of two Tasks can share a Subtask id if and only if one id prefix starts with the other, which never happens for Task ids of one length. |
| AttemptSupervisor.StartedActive | src/execution/attempt-supervisor.ts:80-96 | The kick's loop adds exactly the startable candidates to the active attempts, each once. |
| AttemptSupervisor.StartedItems | src/execution/attempt-supervisor.ts:80-103 | It marks exactly their rows as running. |
| AttemptSupervisor.KickFillsSlots | src/execution/attempt-supervisor.ts:80-96 | After a kick every slot is used or the Task has no pending item, if and only if no item it looked at was active already or refused by its claim. |
| AttemptSupervisor.Supervisor.Kick | src/execution/attempt-supervisor.ts:80-96 | Starts exactly those of the Task's first pending items, as many as the maximum leaves free, that are neither active nor refused by their claim; never more than the maximum are active, and each active attempt runs once. |
| AttemptSupervisor.Supervisor.Settle | src/execution/attempt-supervisor.ts:98-112 | An attempt's row is settled while its slot stays taken, until its event is submitted. |
| AttemptSupervisor.Supervisor.Finish | src/execution/attempt-supervisor.ts:88-95 | When an attempt ends, its slot is freed and its Task is kicked, over the rows as they are; the rows of attempts that had started stay. |
| AttemptSupervisor.Supervisor.Enqueue | src/execution/attempt-supervisor.ts:41-52 | The new items join the rows, the Task gets a context, and is kicked. |
| AttemptSupervisor.Supervisor.Recover | src/execution/attempt-supervisor.ts:54-58 | Exactly the launching items without a sandbox handle become pending before the kick. |
| AttemptSupervisor.Supervisor.DrainPass | src/execution/attempt-supervisor.ts:65-78 | A pass ends the drain if and only if the Task has neither active attempts nor pending items. |
| AttemptCleanup.ReleaseIsGuarded | src/execution/work-unit-claim-service.ts:133-257 | A WorkUnit that the attempt holds has no claim after a release and is idle, unless it was failed or lost, which it stays; any other unit stays as it is. The release of a reconciled claim leaves its unit lost. |
| AttemptCleanup.Runtime.Stop | src/execution/worktree-attempt-sandbox-adapter.ts:149-174 | Stopping throws exactly for an unknown handle or a refused signal; otherwise a process that has a pid and runs or is paused ends exited, and any other stays as it is. |
| AttemptCleanup.Runtime.Signal | src/execution/worktree-attempt-sandbox-adapter.ts:126-142 | Pause and resume act only on a running or paused process with a pid; they throw exactly for an unknown handle or a signal that is refused, and then change nothing. |
| AttemptCleanup.Runtime.Finish | src/execution/worktree-attempt-sandbox-adapter.ts:206-212 | A child's exit ends in exited, which no later operation changes. |
| AttemptCleanup.Runtime.Remove | src/execution/worktree-attempt-sandbox-adapter.ts:185-191 | Removing throws exactly for an unknown handle or a process that runs or is paused, and otherwise forgets the process. |
| AttemptCleanup.Runtime.RecoverItem | src/execution/task-cancellation-coordinator.ts:203-242 | One cancelling attempt is released, with leases, WorkUnits and row, exactly when its sandbox is unrecorded or was observed exited and removed; otherwise nothing of it changes. |
| AttemptCleanup.Runtime.Recover | src/execution/task-cancellation-coordinator.ts:203-242 | Over all cancelling attempts, exactly those whose sandbox is gone for certain are cancelled and lose their leases and rows, and the units they held are unclaimed and idle, unless failed or lost; nothing else changes. |
| AttemptCleanup.Runtime.Reconcile | src/execution/attempt-sandbox-reconciler.ts:17-72 | A row is marked removed only after its process was stopped and removed. It throws exactly when some process can be neither stopped nor removed or its active row cannot be checkpointed; otherwise no process is left, orphans, lost and exited attempts are reported exactly, and every active row is removed or lost. |
| AttemptCleanup.RestartSettlesOnlyUnrecorded | src/execution/worktree-attempt-sandbox-adapter.ts:185-204 | After a restart recovery settles exactly the cancelling attempts that never had a sandbox record. |
| Completion.ValidateAcceptance | src/execution/completion-protocol.ts:238-260 | Reports exactly these violations, each with its code: a key for the second time, evidence that is missing, too much, blank or too long, and keys other than the expected ones; none if and only if every expected key is accepted exactly once, with sound evidence, and no other key is. |
| Completion.ValidateHandoffs | src/execution/completion-protocol.ts:262-292 | Reports exactly these violations: a target for the second time, one without a contract, items that repeat a key or differ from the contract, and targets other than the contracts'; none if and only if targets, keys and kinds are exactly those of the contracts, without repetition. |
| Completion.ValidateBudgets | src/execution/completion-protocol.ts:294-332 | Reports exactly the items, edges, targets and totals that are over their budget; none if and only if all are within. |
| Completion.MaterializedAcceptance | src/execution/completion-protocol.ts:207-260 | A materialised envelope meets the acceptance rules exactly when the authorised keys are distinct. |
| Completion.MaterializedHandoffs | src/execution/completion-protocol.ts:207-292 | It matches its contracts exactly when targets, and the keys of each contract, are distinct. |
| Completion.MaterializedBudgets | src/execution/completion-protocol.ts:207-332 | Its budgets hold if and only if the closed form in body length, artifact count and item counts does: 12000 and 20 per edge, 24000 and 40 in total and per target with the incoming usage. |
| Completion.ValidateCompleted | src/execution/completion-protocol.ts:106-154 | The whole validation of a parsed report accepts its envelope exactly under these conditions and without violations of the result files, and otherwise refuses it with exactly all violations of files, acceptance, handoffs and budgets. |
| JsonLines.JsonLineParser.Feed | src/gateway/jsonl.ts:5-22 | A call decodes its chunk alone, emits the messages of the complete lines in order and keeps the rest; it throws exactly at a line that is not JSON, and keeps what stands behind that line. |
| JsonLines.MessagesAreConserved | src/gateway/jsonl.ts:5-22 | However a text is cut into strings and whatever lines are bad, what went out and what still waits are together the messages of the whole text. |
| JsonLines.MessagesDependOnTextOnly | src/gateway/jsonl.ts:5-22 | If the last call does not throw, the messages depend only on the concatenation of the decoded chunks. |
| JsonLines.LineLeftInBuffer | src/gateway/jsonl.ts:8-20 | The buffer holds a line feed between calls if and only if the last call met a bad line with a complete line behind it. |
| JsonLines.EncodingRoundTrip | src/gateway/jsonl.ts:1-22 | Encoded messages, as a text that is cut into any strings, come back in order, and nothing is left over. |
| JsonLines.TextArrivesIff | src/gateway/jsonl.ts:5-9 | For Buffers: the parser sees the text of the concatenated bytes if and only if no cut goes through a character, or a start of one. |
| JsonLines.MessagesDependOnBytesOnly | src/gateway/jsonl.ts:5-22 | When no cut between Buffers goes through a character, and the last call does not throw, the messages depend only on the concatenated bytes. |
| JsonLines.BytesRoundTrip | src/gateway/jsonl.ts:1-22 | The bytes of encoded messages, cut anywhere but inside a character, come back in order, and nothing is left over. |
| JsonLines.CutMessageArrives | src/gateway/jsonl.ts:5-22 | One encoded message as Buffers, however it is cut: exactly one line arrives, nothing is left over, and the line is the one that was sent if and only if no cut goes through a character; the message goes out if and only if that line reads as it. |
| JsonLines.SplitLetterIsGarbled | src/gateway/jsonl.ts:8 | Any encoded message that is cut inside a letter of two bytes arrives as another line, with two U+FFFD in place of the letter. |
| Utf8.ChunksDecodeIff | src/gateway/jsonl.ts:8 | Chunks of any bytes that are decoded alone give the text of the whole if and only if every cut is at a boundary. |
| Utf8.BoundaryOfEncoded | src/gateway/jsonl.ts:8 | In encoded text the boundaries are exactly the end and the positions before a byte that does not continue a character. |
| Utf8.WholeIff | src/gateway/jsonl.ts:8 | Bytes are one character exactly when the table of section 3 of RFC 3629 writes a code point so, in the shortest form and no surrogate; they decode to that code point. |
| Utf8.EncodingWrites | src/gateway/jsonl.ts:1-9 | A character is encoded as that table writes its code point. |
| Utf8.DecodingInvertsEncoding | src/gateway/jsonl.ts:1-9 | Decoding gives an encoded text back, with U+FFFD for every lone surrogate. |
| AgentAvailability.HistoriesAreNewest | src/kernel/executor-status-projection.ts:37-94 | Over every run of outcomes and checks both histories are the ten newest entries, newest first. |
| AgentAvailability.HealthOverRuns | src/kernel/executor-status-projection.ts:37-94 | Disabled is never entered or left; error is left, and healthy reached, only by a success or a recovered check. |
| AgentAvailability.HealthIsLastDecided | src/kernel/executor-status-projection.ts:37-94 | Over every run of a class that is not disabled, health is what the last deciding event made it: healthy by a new success or a check that finds an error recovered, in error by a new failure of the class in authentication, configuration or adapter; without one it is as it was. |
| AgentAvailability.FirstOutcome | src/kernel/executor-status-projection.ts:37-76 | The first outcome of a class makes it healthy, puts it in error, or leaves it unverified, and is its history. |
| AgentAvailability.DeriveAgentAvailability | src/kernel/agent-availability.ts:24-53 | Available exactly while the newest attempts, as many as the threshold, have not all failed within the window by network, timeout or infrastructure of the class; then temporarily unavailable until the cooldown after the newest, and eligible for a probe from there on; permanently unavailable when disabled or in error. It throws exactly when a threshold of zero meets a newest attempt that is no such failure, or none. |
| AgentAvailability.MovesBackIff | src/kernel/agent-availability.ts:24-47 | For all histories, policies and times: a later report is worse than an earlier one if and only if health does not decide, the threshold is positive, and the attempts it looks at are transient failures within one window of which one is dated in the future. |
| AgentAvailability.AvailabilityMovesForward | src/kernel/agent-availability.ts:24-47 | For a fixed history, and unless the attempts that the threshold looks at are such a streak, time moves availability only from temporarily unavailable over probe eligible to available. |
| AgentAvailability.FutureFailureMovesBack | src/kernel/agent-availability.ts:30-38 | With a threshold of one, a single failure dated in the future makes availability move back. |

## Left out

- Gateway, Feishu, TUI, notifications, setup, diagnosis and all user-facing text.
- Policy of the kernel, guidance scores, learning candidates, memory and dashboards.
- Permission grants and resource leases, except that recovery drops the leases of a settled attempt.
- Heuristics by regular expressions: error classification, secret scanning, Markdown, test evidence.
- Checkpoint garbage collection beyond the removal of single objects, and the registry's own `stableJson`, which sorts by locale.
- Liveness across Tasks: the shared drain promise and the shared slots do not promise it.
- KernelWorkflow: `failed` applications and the operator's `resolveRecoveryItem`, filters by action, event type and Task, and timestamps of marks; ids are integers, and an observation counts as an event that is enqueued when it occurs. An exception of `decide`, of the snapshot or of `issue` in a process that lives on leaves its event claimed like a crash that is not followed by recovery: `IssuedOnce` covers it, `CrashesAreInvisible` does not.
- KernelWorkflow.DurableKernelWorkflow.Drain: runs without a submission or a crash in between; those are steps of the machine, which the drain is shown to follow.
- AttemptLanding: accepting a partial result, lease and replan rows, the event log, new Tasks, and Subtask rows that a new graph revision writes; landings and reports are assumed to be built as the attempt runner, the runtime and the recovery build them, where a lemma asks for `OwnLanding`, `OwnReport` or a run.
- OutcomeReports: events under other ids, such as those of capacity, merge conflicts and expired heartbeats.
- CancelledWork.CancelledSubtaskIsNeverDelivered: a new dispatch of the Subtask after the cancellation is excluded, unless its Task has ended.
- GitPublication: entering the conflicted state and its merge repair, the first import of a Project, rename detection, commit hash collisions, rewriting of completion artifacts, local changes of a worktree during synchronisation, and handoff and Task rows of the record transaction. Git can fail before and after a promotion; in between, and for the interleaving of Git commands, see PromotionRace.
- PromotionRace: the commands of validation and synchronisation, and the part of a merge that happens on another branch than main.
- RepositoryLock: the timing of microtasks.
- WorkspaceStore: the locale order of manifest entries, the JSON of the manifest, checks against paths that escape the workspace, file modes, and hashing a copy again while it is stored.
- StableJson: how numbers are formatted (a number is its token), SHA-256, and `undefined`.
- Lexer: the source decodes by code points and lexes by code units; the special characters are single units, so the values agree.
- CommandParser: hints, suggestions and error messages; the cache of candidates, whose providers are taken not to depend on the prefix; an action without an implementation; option and argument names that are properties of every JavaScript object.
- CommandParser.CompletionTellsExecution: does not cover `/help`, whose completion follows paths and whose execution parses them, nor actions with two options of one name.
- TopologyLayer: the Subtask records beyond ids and dependencies.
- WorkGraph: other Tasks' rows, evidence and event rows, and context references.
- AttemptSupervisor: re-entry during a launch, what the submission of the outcome event does, conflicts of a batch insert, and order across generations.
- AttemptCleanup: what another process or a child's exit does between stopping, inspecting and removing a sandbox, the part of recovery that settles publications, the settling of a partial cancellation, the contents of checkpoints, killing the process of a row that has no runtime, and the claiming, marking and sweeping of WorkUnits.
- Completion: parsing the report and its schema, how the violations of result files come about, failed reports, paths, messages and order of violations, and concurrent siblings of the incoming usage.
- JsonLines: exceptions of the message handler.
- AgentAvailability: normalising a failure before it is projected, and the time of the last update.
