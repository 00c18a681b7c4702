/**
 The rows on which attempt landing, cancellation and pause race:
 src/execution/attempt-terminal-service.ts, the transaction of
 src/execution/task-cancellation-coordinator.ts, and the statements of the
 repositories they call (src/storage).

 A transaction of the source is one method here: it works on a private copy of
 the database and stores the copy only when it commits.
 */
module AttemptLanding {
  import opened Prelude
  import P = PublicationStatus

  type Id(==, !new)
  type Text(==, !new)

  datatype TaskStatus =
    TaskCreated | TaskReady | TaskRunning | TaskParked | TaskBlocked | TaskDone | TaskArchived | TaskCancelled
  datatype SubtaskStatus =
    Ready | Running | AwaitingIntegration | AwaitingDecision | Blocked | Done | Cancelled
  datatype DispatchStatus =
    PendingLaunch | Launching | Launched | Cancelling | Terminal | DispatchCancelled | Uncertain
  datatype Subtask = Subtask(
    taskId: Id, generationId: Id, graphRevision: int, status: SubtaskStatus, error: Option<Text>)
  datatype Revision = Revision(generationId: Id, revision: int)
  /** Who runs the attempt, how, and for which attempt before it. */
  datatype Origin = Origin(agentClassName: Id, attemptKind: Id, sourceAttemptId: Option<Id>)
  datatype Dispatch = Dispatch(
    taskId: Id, subtaskId: Id, generationId: Id, decisionId: Id, origin: Origin,
    status: DispatchStatus, errorSummary: Option<Text>)
  datatype Publication = Publication(
    taskId: Id, generationId: Id, subtaskId: Id, candidateCommit: Id,
    permissionRequestId: Id, status: P.Status)

  datatype Reason = TaskPaused | CancelledOrStale | Other(code: Id)
  datatype FailureKind = CancelledKind | StaleKind | OtherKind(kind: Id)
  datatype Failing = Failing(kind: FailureKind, reason: Reason, summary: Text)

  datatype TerminalState = Completed | ExecutorFailed | CancelledOrStaleState | OtherState(state: Id)
  datatype Receipt = Receipt(
    attemptId: Id, taskId: Id, subtaskId: Id, terminalState: TerminalState,
    errorCode: Option<Reason>, errorDetail: Option<Text>, failure: Option<Failing>, rawResponse: Text)

  /** The ids of an attempt's outcome and of its contract failure are built from
      the attempt's id. */
  datatype EventId = OutcomeOf(attemptId: Id) | ContractOf(attemptId: Id) | OtherEvent(id: Id)
  datatype Event = Event(
    id: EventId, correlationId: Id, causationId: Id, occurredAt: int, sessionId: Id,
    taskId: Id, subtaskId: Id, attemptId: Id, completed: bool, origin: Origin, failure: Option<Failing>)

  datatype Database = Database(
    tasks: map<Id, TaskStatus>,
    subtasks: map<Id, Subtask>,
    /** The active revision of each task that has one. */
    revisions: map<Id, Revision>,
    dispatch: map<Id, Dispatch>,
    receipts: map<Id, Receipt>,
    publications: map<Id, Publication>,
    inbox: map<EventId, Event>)

  /** The fixed texts of the two rewritten outcomes. */
  datatype Texts = Texts(pauseSummary: Text, cancellationSummary: Text)

  // -------------------------------------------------------------- landing

  datatype Candidate = Candidate(id: Id, publication: Publication)
  datatype Repair = Repair(publicationId: Id, candidateCommit: Id)
  datatype Landing = Landing(
    receipt: Receipt, expectedSubtaskStatus: SubtaskStatus, nextSubtaskStatus: SubtaskStatus,
    subtaskError: Option<Text>, event: Event,
    publication: Option<Candidate>, repairPublication: Option<Repair>, now: int)
  datatype Winner = Winner(cancellationWon: bool, pauseWon: bool)
  datatype LandingError =
    | DispatchNotFound | IdentityMismatch | CreateAndRepair | FenceFactsNotFound | ReceiptExists
    | PauseFenceChanged | FenceChanged | PublicationExists | RepairNotPending | DispatchNotTerminal

  function PausedReceipt(receipt: Receipt, texts: Texts): Receipt {
    receipt.(
      terminalState := CancelledOrStaleState,
      errorCode := Some(TaskPaused),
      errorDetail := Some(texts.pauseSummary),
      failure := Some(Failing(CancelledKind, TaskPaused, texts.pauseSummary)))
  }

  function RewrittenOutcome(event: Event, attemptId: Id, dispatch: Dispatch, now: int, failure: Failing): Event {
    Event(event.id, dispatch.decisionId, dispatch.decisionId, now, event.sessionId,
          dispatch.taskId, dispatch.subtaskId, attemptId, false, dispatch.origin, Some(failure))
  }

  function PauseOutcome(event: Event, attemptId: Id, dispatch: Dispatch, now: int, texts: Texts): Event {
    RewrittenOutcome(event, attemptId, dispatch, now, Failing(CancelledKind, TaskPaused, texts.pauseSummary))
  }

  function CancellationOutcome(event: Event, attemptId: Id, dispatch: Dispatch, now: int, texts: Texts): Event {
    RewrittenOutcome(event, attemptId, dispatch, now, Failing(StaleKind, CancelledOrStale, texts.cancellationSummary))
  }

  /** `markTerminal` of the dispatch repository. */
  function AfterMarkTerminal(dispatch: Dispatch, errorSummary: Option<Text>): Dispatch {
    match dispatch.status
    case Cancelling =>
      dispatch.(status := DispatchCancelled,
                errorSummary := if errorSummary.Some? then errorSummary else dispatch.errorSummary)
    case Launching => dispatch.(status := Terminal, errorSummary := errorSummary)
    case Launched => dispatch.(status := Terminal, errorSummary := errorSummary)
    case Uncertain => dispatch.(status := Terminal, errorSummary := errorSummary)
    case _ => dispatch
  }

  /** `markUncertain` of the dispatch repository. */
  function AfterMarkUncertain(dispatch: Dispatch, errorSummary: Text): Dispatch {
    if dispatch.status in {PendingLaunch, Launching, Launched}
    then dispatch.(status := Uncertain, errorSummary := Some(errorSummary)) else dispatch
  }

  predicate Settled(dispatch: Dispatch) {
    dispatch.status == Terminal || dispatch.status == DispatchCancelled
  }

  predicate Identified(db: Database, input: Landing) {
    var r := input.receipt;
    && r.attemptId in db.dispatch
    && db.dispatch[r.attemptId].taskId == r.taskId
    && db.dispatch[r.attemptId].subtaskId == r.subtaskId
    && input.event.attemptId == r.attemptId
    && input.event.taskId == r.taskId
    && input.event.subtaskId == r.subtaskId
  }

  predicate CancellationWins(db: Database, input: Landing)
    requires input.receipt.attemptId in db.dispatch
    requires input.receipt.taskId in db.tasks && input.receipt.subtaskId in db.subtasks
  {
    || db.tasks[input.receipt.taskId] == TaskCancelled
    || db.subtasks[input.receipt.subtaskId].status == Cancelled
    || db.dispatch[input.receipt.attemptId].status == Cancelling
    || db.dispatch[input.receipt.attemptId].status == DispatchCancelled
  }

  predicate PauseWins(db: Database, input: Landing)
    requires input.receipt.attemptId in db.dispatch
    requires input.receipt.taskId in db.tasks && input.receipt.subtaskId in db.subtasks
  {
    !CancellationWins(db, input) && db.tasks[input.receipt.taskId] == TaskParked
  }

  predicate ExecutorWins(db: Database, input: Landing)
    requires input.receipt.attemptId in db.dispatch
    requires input.receipt.taskId in db.tasks && input.receipt.subtaskId in db.subtasks
  {
    !CancellationWins(db, input) && db.tasks[input.receipt.taskId] != TaskParked
  }

  /** The row the fenced UPDATE of the Subtask would match. */
  predicate SubtaskAsExpected(db: Database, input: Landing, task: TaskStatus) {
    && input.receipt.subtaskId in db.subtasks
    && db.subtasks[input.receipt.subtaskId].taskId == input.receipt.taskId
    && db.subtasks[input.receipt.subtaskId].status == input.expectedSubtaskStatus
    && input.receipt.taskId in db.tasks
    && db.tasks[input.receipt.taskId] == task
  }

  predicate CandidateFits(db: Database, candidate: Candidate) {
    && candidate.id !in db.publications
    && (forall id | id in db.publications ::
          db.publications[id].permissionRequestId != candidate.publication.permissionRequestId)
  }

  predicate Repairable(publications: map<Id, Publication>, input: Landing, repair: Repair) {
    && repair.publicationId in publications
    && publications[repair.publicationId].taskId == input.receipt.taskId
    && publications[repair.publicationId].subtaskId == input.receipt.subtaskId
    && (publications[repair.publicationId].status == P.Conflicted
        || (publications[repair.publicationId].status == P.Pending
            && publications[repair.publicationId].candidateCommit == repair.candidateCommit))
  }

  /** The check that fails first, if any does. */
  function LandingFault(db: Database, input: Landing): Option<LandingError> {
    var r := input.receipt;
    if r.attemptId !in db.dispatch then Some(DispatchNotFound)
    else if !Identified(db, input) then Some(IdentityMismatch)
    else if input.publication.Some? && input.repairPublication.Some? then Some(CreateAndRepair)
    else if r.taskId !in db.tasks || r.subtaskId !in db.subtasks then Some(FenceFactsNotFound)
    else if r.attemptId in db.receipts then Some(ReceiptExists)
    else if PauseWins(db, input) && !SubtaskAsExpected(db, input, TaskParked) then Some(PauseFenceChanged)
    else if ExecutorWins(db, input) && !SubtaskAsExpected(db, input, TaskRunning) then Some(FenceChanged)
    else if ExecutorWins(db, input) && input.publication.Some? && !CandidateFits(db, input.publication.value)
      then Some(PublicationExists)
    else if ExecutorWins(db, input) && input.repairPublication.Some?
            && !Repairable(db.publications, input, input.repairPublication.value) then Some(RepairNotPending)
    else if db.dispatch[r.attemptId].status == PendingLaunch then Some(DispatchNotTerminal)
    else None
  }

  predicate CanLand(db: Database, input: Landing) {
    LandingFault(db, input).None?
  }

  function LandedReceipt(db: Database, input: Landing, texts: Texts): Receipt
    requires CanLand(db, input)
  {
    if PauseWins(db, input) then PausedReceipt(input.receipt, texts) else input.receipt
  }

  function LandedSubtasks(db: Database, input: Landing): map<Id, Subtask>
    requires CanLand(db, input)
  {
    var id := input.receipt.subtaskId;
    if CancellationWins(db, input) then db.subtasks
    else if PauseWins(db, input) then db.subtasks[id := db.subtasks[id].(status := Ready, error := None)]
    else db.subtasks[id := db.subtasks[id].(status := input.nextSubtaskStatus, error := input.subtaskError)]
  }

  function LandedPublications(db: Database, input: Landing): map<Id, Publication>
    requires CanLand(db, input)
  {
    if !ExecutorWins(db, input) then db.publications
    else if input.publication.Some? then
      db.publications[input.publication.value.id := input.publication.value.publication.(status := P.AwaitingApproval)]
    else if input.repairPublication.Some? then
      var repair := input.repairPublication.value;
      db.publications[repair.publicationId :=
        db.publications[repair.publicationId].(status := P.Pending, candidateCommit := repair.candidateCommit)]
    else db.publications
  }

  function LandedEvent(db: Database, input: Landing, texts: Texts): Event
    requires CanLand(db, input)
  {
    var a := input.receipt.attemptId;
    if PauseWins(db, input) then PauseOutcome(input.event, a, db.dispatch[a], input.now, texts)
    else if CancellationWins(db, input) then CancellationOutcome(input.event, a, db.dispatch[a], input.now, texts)
    else input.event
  }

  /** All tables after a landing that commits. */
  function AfterLanding(db: Database, input: Landing, texts: Texts): Database
    requires CanLand(db, input)
  {
    var a := input.receipt.attemptId;
    var event := LandedEvent(db, input, texts);
    db.(
      receipts := db.receipts[a := LandedReceipt(db, input, texts)],
      subtasks := LandedSubtasks(db, input),
      publications := LandedPublications(db, input),
      dispatch := db.dispatch[a := AfterMarkTerminal(db.dispatch[a], LandedReceipt(db, input, texts).errorDetail)],
      inbox := Enqueued(db, event).inbox)
  }

  /** A landing commits exactly when the attempt has its item and no receipt, the
      identities agree, Task and Subtask exist, and what its winner asks for
      holds: nothing of a cancellation; of a pause and of the executor, that the
      Subtask has the expected status; and of the executor, that the Task runs
      and its publication can be stored. */
  lemma LandsIff(db: Database, input: Landing)
    ensures var r := input.receipt;
            CanLand(db, input) <==>
              && r.attemptId in db.dispatch && r.attemptId !in db.receipts
              && db.dispatch[r.attemptId].taskId == r.taskId == input.event.taskId
              && db.dispatch[r.attemptId].subtaskId == r.subtaskId == input.event.subtaskId
              && input.event.attemptId == r.attemptId
              && r.taskId in db.tasks && r.subtaskId in db.subtasks
              && db.dispatch[r.attemptId].status != PendingLaunch
              && (input.publication.None? || input.repairPublication.None?)
              && (!CancellationWins(db, input) ==>
                    && db.subtasks[r.subtaskId].taskId == r.taskId
                    && db.subtasks[r.subtaskId].status == input.expectedSubtaskStatus
                    && db.tasks[r.taskId] in {TaskParked, TaskRunning})
              && (ExecutorWins(db, input) && input.publication.Some? ==>
                    && input.publication.value.id !in db.publications
                    && forall p :: p in db.publications ==>
                         db.publications[p].permissionRequestId
                         != input.publication.value.publication.permissionRequestId)
              && (ExecutorWins(db, input) && input.repairPublication.Some? ==>
                    var p := input.repairPublication.value.publicationId;
                    && p in db.publications && db.publications[p].taskId == r.taskId
                    && db.publications[p].subtaskId == r.subtaskId
                    && (db.publications[p].status == P.Conflicted
                        || (db.publications[p].status == P.Pending
                            && db.publications[p].candidateCommit == input.repairPublication.value.candidateCommit)))
  {
  }

  /** What a refused landing says is what is wrong. */
  lemma FaultTells(db: Database, input: Landing)
    requires LandingFault(db, input).Some?
    ensures var r := input.receipt;
            match LandingFault(db, input).value
            case DispatchNotFound => r.attemptId !in db.dispatch
            case IdentityMismatch =>
              r.attemptId in db.dispatch
              && !(r.attemptId == input.event.attemptId
                   && db.dispatch[r.attemptId].taskId == r.taskId == input.event.taskId
                   && db.dispatch[r.attemptId].subtaskId == r.subtaskId == input.event.subtaskId)
            case CreateAndRepair => input.publication.Some? && input.repairPublication.Some?
            case FenceFactsNotFound => r.taskId !in db.tasks || r.subtaskId !in db.subtasks
            case ReceiptExists => r.attemptId in db.receipts
            case PauseFenceChanged =>
              && r.taskId in db.tasks && db.tasks[r.taskId] == TaskParked && r.subtaskId in db.subtasks
              && (db.subtasks[r.subtaskId].taskId != r.taskId
                  || db.subtasks[r.subtaskId].status != input.expectedSubtaskStatus)
            case FenceChanged =>
              && r.taskId in db.tasks && r.subtaskId in db.subtasks
              && db.tasks[r.taskId] != TaskParked && db.tasks[r.taskId] != TaskCancelled
              && (db.tasks[r.taskId] != TaskRunning || db.subtasks[r.subtaskId].taskId != r.taskId
                  || db.subtasks[r.subtaskId].status != input.expectedSubtaskStatus)
            case PublicationExists =>
              && input.publication.Some?
              && (input.publication.value.id in db.publications
                  || exists p :: p in db.publications
                       && db.publications[p].permissionRequestId
                          == input.publication.value.publication.permissionRequestId)
            case RepairNotPending =>
              && input.repairPublication.Some?
              && var repair := input.repairPublication.value;
                 !(repair.publicationId in db.publications
                   && db.publications[repair.publicationId].taskId == r.taskId
                   && db.publications[repair.publicationId].subtaskId == r.subtaskId
                   && db.publications[repair.publicationId].status == P.Conflicted)
            case DispatchNotTerminal =>
              r.attemptId in db.dispatch && db.dispatch[r.attemptId].status == PendingLaunch
  {
  }

  // --------------------------------------------------------- cancellation

  /** Rows a cancellation request covers; no generation means every generation. */
  datatype Scope = Scope(taskId: Id, generationId: Option<Id>, subtaskIds: Option<set<Id>>)

  predicate Covers(scope: Scope, taskId: Id, generationId: Id, subtaskId: Id) {
    && taskId == scope.taskId
    && (scope.generationId.Some? ==> generationId == scope.generationId.value)
    && (scope.subtaskIds.Some? ==> subtaskId in scope.subtaskIds.value)
  }

  function CancelledDispatch(status: DispatchStatus): DispatchStatus {
    match status
    case PendingLaunch => DispatchCancelled
    case Launching => Cancelling
    case Launched => Cancelling
    case Uncertain => Cancelling
    case _ => status
  }

  /** requestDependentCancellation over the dispatch and publication tables. */
  function RequestCancellation(db: Database, scope: Scope): Database {
    db.(
      dispatch := map a | a in db.dispatch ::
        var d := db.dispatch[a];
        if Covers(scope, d.taskId, d.generationId, d.subtaskId)
        then d.(status := CancelledDispatch(d.status)) else d,
      publications := map p | p in db.publications ::
        var row := db.publications[p];
        if Covers(scope, row.taskId, row.generationId, row.subtaskId)
        then row.(status := P.AfterCancellation(row.status)) else row)
  }

  function CancelRows(db: Database, ids: set<Id>): Database {
    db.(subtasks := map s | s in db.subtasks ::
      if s in ids then db.subtasks[s].(status := Cancelled) else db.subtasks[s])
  }

  /** `listActiveByTask`, or every Subtask of the task when no revision is active. */
  function ActiveSubtasks(db: Database, taskId: Id): set<Id> {
    set s | s in db.subtasks && db.subtasks[s].taskId == taskId
            && (taskId in db.revisions ==> db.subtasks[s].graphRevision == db.revisions[taskId].revision)
  }

  predicate IsOfTask(item: Dispatch, taskId: Id, generationId: Option<Id>) {
    item.taskId == taskId && (generationId.Some? ==> item.generationId == generationId.value)
  }

  predicate Cancellable(status: TaskStatus) {
    status != TaskDone && status != TaskArchived && status != TaskCancelled
  }

  datatype CancellationError =
    TaskNotFound | GenerationChanged | TaskNotCancellable | GraphRevisionChanged | ClosureChanged

  function ActiveGeneration(db: Database, taskId: Id): Option<Id> {
    if taskId in db.revisions then Some(db.revisions[taskId].generationId) else None
  }

  predicate CanCancelTask(db: Database, taskId: Id, generationId: Option<Id>) {
    taskId in db.tasks && generationId == ActiveGeneration(db, taskId) && Cancellable(db.tasks[taskId])
  }

  function TaskClosure(db: Database, taskId: Id): set<Id> {
    set s | s in ActiveSubtasks(db, taskId)
            && db.subtasks[s].status != Done && db.subtasks[s].status != Cancelled
  }

  function AfterCancelTask(db: Database, taskId: Id): Database {
    RequestCancellation(
      CancelRows(db.(tasks := db.tasks[taskId := TaskCancelled]), TaskClosure(db, taskId)),
      Scope(taskId, ActiveGeneration(db, taskId), None))
  }

  predicate CanCancelSubtasks(
    db: Database, taskId: Id, generationId: Id, revision: int, expected: map<Id, SubtaskStatus>)
  {
    && taskId in db.tasks
    && taskId in db.revisions && db.revisions[taskId] == Revision(generationId, revision)
    && (forall s | s in expected ::
          s in db.subtasks && db.subtasks[s].taskId == taskId
          && db.subtasks[s].generationId == generationId && db.subtasks[s].status == expected[s])
  }

  function AfterCancelSubtasks(db: Database, taskId: Id, generationId: Id, ids: set<Id>): Database {
    RequestCancellation(CancelRows(db, ids), Scope(taskId, Some(generationId), Some(ids)))
  }

  // ----------------------------------------------------------------- runs

  /** One committed or rejected transaction; a rejected one changes nothing. */
  datatype Step =
    | Land(input: Landing)
    | CancelTask(taskId: Id, generationId: Option<Id>)
    | CancelSubtasks(taskId: Id, generation: Id, revision: int, expected: map<Id, SubtaskStatus>)
    | MoveTask(taskId: Id, target: TaskStatus)
    | AddDispatch(attemptId: Id, item: Dispatch)
    | Claim(attemptId: Id)
    | MarkRunning(attemptId: Id)
    | MarkCancelled(attemptId: Id)
    | Unclaim(attemptId: Id)
    | Report(event: Event)
    | Approve(publicationId: Id)
    | Deny(publicationId: Id, denial: Text)
    | Reissue(publicationId: Id, candidateCommit: Id, permissionRequestId: Id)
    | RecoverApplying(publicationId: Id)
    | SettlePublication(publicationId: Id)
    | RecoverSubtask(subtaskId: Id, note: Text)
    | BlockSubtask(subtaskId: Id, note: Text)
    | UnblockSubtask(subtaskId: Id)

  /** The task engine's table of transitions, and its `cancel`. */
  predicate MayBecome(status: TaskStatus, target: TaskStatus) {
    match status
    case TaskCreated => target in {TaskReady, TaskParked, TaskCancelled}
    case TaskReady => target in {TaskRunning, TaskParked, TaskCancelled}
    case TaskRunning => target in {TaskParked, TaskBlocked, TaskDone, TaskCancelled}
    case TaskParked => target in {TaskReady, TaskCancelled}
    case TaskBlocked => target in {TaskReady, TaskParked, TaskDone, TaskCancelled}
    case TaskDone => target == TaskArchived
    case _ => false
  }

  function TaskMoved(db: Database, taskId: Id, target: TaskStatus): Database {
    if taskId in db.tasks && MayBecome(db.tasks[taskId], target)
    then db.(tasks := db.tasks[taskId := target]) else db
  }

  /** INSERT OR IGNORE into the inbox. */
  function Enqueued(db: Database, event: Event): Database {
    if event.id in db.inbox then db else db.(inbox := db.inbox[event.id := event])
  }

  function SetDispatch(db: Database, a: Id, from: set<DispatchStatus>, to: DispatchStatus): Database {
    if a in db.dispatch && db.dispatch[a].status in from
    then db.(dispatch := db.dispatch[a := db.dispatch[a].(status := to)]) else db
  }

  function SetPublication(db: Database, p: Id, from: P.Status, to: P.Status): Database {
    if HasStatus(db, p, from)
    then db.(publications := db.publications[p := db.publications[p].(status := to)]) else db
  }

  /** `updateStatus` of the Subtask repository: no condition but the id. */
  function UpdateStatus(db: Database, s: Id, status: SubtaskStatus, error: Option<Text>): Database {
    if s in db.subtasks
    then db.(subtasks := db.subtasks[s := db.subtasks[s].(status := status, error := error)]) else db
  }

  predicate HasStatus(db: Database, p: Id, status: P.Status) {
    p in db.publications && db.publications[p].status == status
  }

  /** A publication write, and the Subtask write that follows if it changed a
      row. */
  function WithSubtask(db: Database, written: Database, p: Id, from: P.Status,
                       status: SubtaskStatus, error: Option<Text>): Database
  {
    if HasStatus(db, p, from) then UpdateStatus(written, db.publications[p].subtaskId, status, error) else db
  }

  /** `reissueAfterStale`: only a parked row gets a new request and candidate. */
  function Reissued(db: Database, p: Id, candidateCommit: Id, request: Id): Database {
    if HasStatus(db, p, P.Parked)
    then db.(publications := db.publications[p := db.publications[p].(
               status := P.AwaitingApproval, candidateCommit := candidateCommit, permissionRequestId := request)])
    else db
  }

  /** Neither the publication's Task nor its Subtask is cancelled. */
  predicate Unfenced(db: Database, p: Id) {
    && p in db.publications
    && db.publications[p].taskId in db.tasks && db.tasks[db.publications[p].taskId] != TaskCancelled
    && db.publications[p].subtaskId in db.subtasks
    && db.subtasks[db.publications[p].subtaskId].status != Cancelled
  }

  /** `claimPending` refuses items of a cancelled Task or Subtask. */
  predicate Claimable(db: Database, a: Id) {
    && a in db.dispatch
    && db.dispatch[a].taskId in db.tasks && db.tasks[db.dispatch[a].taskId] != TaskCancelled
    && db.dispatch[a].subtaskId in db.subtasks && db.subtasks[db.dispatch[a].subtaskId].status != Cancelled
  }

  function Apply(db: Database, step: Step, texts: Texts): Database {
    match step
    case Land(input) => if CanLand(db, input) then AfterLanding(db, input, texts) else db
    case CancelTask(t, g) => if CanCancelTask(db, t, g) then AfterCancelTask(db, t) else db
    case CancelSubtasks(t, g, r, expected) =>
      if CanCancelSubtasks(db, t, g, r, expected) then AfterCancelSubtasks(db, t, g, expected.Keys) else db
    case MoveTask(t, target) => TaskMoved(db, t, target)
    case AddDispatch(a, item) =>
      if a in db.dispatch then db else db.(dispatch := db.dispatch[a := item.(status := PendingLaunch)])
    case Claim(a) => if Claimable(db, a) then SetDispatch(db, a, {PendingLaunch}, Launching) else db
    case MarkRunning(a) => SetDispatch(db, a, {Launching}, Launched)
    case MarkCancelled(a) => SetDispatch(db, a, {Cancelling}, DispatchCancelled)
    case Unclaim(a) => SetDispatch(db, a, {Launching}, PendingLaunch)
    case Report(event) => Enqueued(db, event)
    case Approve(p) => SetPublication(db, p, P.AwaitingApproval, P.Pending)
    case Deny(p, denial) =>
      WithSubtask(db, SetPublication(db, p, P.AwaitingApproval, P.Denied), p, P.AwaitingApproval, Blocked, Some(denial))
    case Reissue(p, candidate, request) =>
      WithSubtask(db, Reissued(db, p, candidate, request), p, P.Parked, AwaitingIntegration, None)
    case RecoverApplying(p) => if Unfenced(db, p) then SetPublication(db, p, P.Applying, P.Pending) else db
    case SettlePublication(p) => SetPublication(db, p, P.Cancelling, P.Cancelled)
    case RecoverSubtask(s, note) =>
      if s in db.subtasks && db.subtasks[s].status != Done && db.subtasks[s].status != Cancelled
      then UpdateStatus(db, s, Ready, Some(note)) else db
    case BlockSubtask(s, note) =>
      if s in db.subtasks && db.subtasks[s].status == AwaitingDecision
      then UpdateStatus(db, s, Blocked, Some(note)) else db
    case UnblockSubtask(s) =>
      if s in db.subtasks && db.subtasks[s].status == Blocked then UpdateStatus(db, s, Ready, None) else db
  }

  /** The tables, and what processes hold in memory across an `await`: runs of
      attempts, those of them that passed the check of their Subtask's status
      and have not written it, and publications whose worker has not returned
      from Git. */
  datatype World = World(db: Database, runs: set<Id>, launches: set<Id>, workers: set<Id>)

  /** A transaction, or a move of a run or of a publication worker. The Subtask
      writes of `StartSubtask` and `ParkStale` carry no condition. `EndRun` and
      `FailRun` are the supervisor's marks when a run has returned or thrown. */
  datatype Action =
    | Commit(step: Step)
    | CheckLaunch(attemptId: Id, primary: bool)
    | AbandonLaunch(attemptId: Id)
    | StartSubtask(attemptId: Id)
    | EndRun(attemptId: Id)
    | FailRun(attemptId: Id, summary: Text)
    | BeginPublish(publicationId: Id)
    | FinishPublish(publicationId: Id)
    | FailPublish(publicationId: Id)
    | ParkStale(publicationId: Id, note: Text)
    | Crash

  /** The attempt's item runs, its Task runs, and its Subtask waits for it. */
  predicate Launchable(db: Database, a: Id, primary: bool) {
    && a in db.dispatch && db.dispatch[a].status == Launched
    && db.dispatch[a].taskId in db.tasks && db.tasks[db.dispatch[a].taskId] == TaskRunning
    && db.dispatch[a].subtaskId in db.subtasks
    && db.subtasks[db.dispatch[a].subtaskId].taskId == db.dispatch[a].taskId
    && db.subtasks[db.dispatch[a].subtaskId].status == if primary then Ready else AwaitingDecision
  }

  function Started(db: Database, a: Id): Database {
    if a in db.dispatch && db.dispatch[a].subtaskId in db.subtasks
    then UpdateStatus(db, db.dispatch[a].subtaskId, Running, db.subtasks[db.dispatch[a].subtaskId].error) else db
  }

  function RunEnded(db: Database, a: Id): Database {
    if a in db.dispatch
    then db.(dispatch := db.dispatch[a := AfterMarkTerminal(db.dispatch[a], None)]) else db
  }

  function RunFailed(db: Database, a: Id, summary: Text): Database {
    if a in db.dispatch
    then db.(dispatch := db.dispatch[a := AfterMarkUncertain(db.dispatch[a], summary)]) else db
  }

  function Parked(db: Database, p: Id, note: Text): Database {
    if p in db.publications
    then UpdateStatus(SetPublication(db, p, P.Applying, P.Parked), db.publications[p].subtaskId, Ready, Some(note))
    else db
  }

  function Act(w: World, action: Action, texts: Texts): World {
    match action
    case Commit(step) => w.(db := Apply(w.db, step, texts))
    case CheckLaunch(a, primary) =>
      if Launchable(w.db, a, primary) then w.(runs := w.runs + {a}, launches := w.launches + {a}) else w
    case AbandonLaunch(a) => w.(launches := w.launches - {a})
    case StartSubtask(a) =>
      if a in w.launches then w.(db := Started(w.db, a), launches := w.launches - {a}) else w
    case EndRun(a) => w.(db := RunEnded(w.db, a), runs := w.runs - {a}, launches := w.launches - {a})
    case FailRun(a, summary) =>
      w.(db := RunFailed(w.db, a, summary), runs := w.runs - {a}, launches := w.launches - {a})
    case BeginPublish(p) =>
      if Unfenced(w.db, p) && w.db.publications[p].status == P.Pending
      then w.(db := SetPublication(w.db, p, P.Pending, P.Applying), workers := w.workers + {p}) else w
    case FinishPublish(p) =>
      if p in w.workers
      then w.(db := WithSubtask(w.db, SetPublication(w.db, p, P.Applying, P.Integrated), p, P.Applying, Done, None),
              workers := w.workers - {p}) else w
    case FailPublish(p) =>
      if p in w.workers
      then w.(db := SetPublication(w.db, p, P.Applying, P.Pending), workers := w.workers - {p}) else w
    case ParkStale(p, note) =>
      if p in w.workers then w.(db := Parked(w.db, p, note), workers := w.workers - {p}) else w
    case Crash => World(w.db, {}, {}, {})
  }

  /** How the attempt runner builds a landing: the event's id is one of the
      attempt's own, event and receipt agree on success, the Subtask is expected
      to run, a failure publishes nothing, and a candidate belongs to the Subtask
      that is landing. */
  predicate OwnLanding(db: Database, input: Landing) {
    && (input.event.id == OutcomeOf(input.receipt.attemptId)
        || (input.event.id == ContractOf(input.receipt.attemptId) && !input.event.completed))
    && (input.event.completed <==> input.receipt.terminalState == Completed)
    && input.expectedSubtaskStatus == Running
    && (if input.event.completed then input.nextSubtaskStatus == AwaitingIntegration
        else input.nextSubtaskStatus in {AwaitingDecision, Ready}
             && input.publication.None? && input.repairPublication.None?)
    && (input.publication.Some? && input.receipt.subtaskId in db.subtasks ==>
          var row := input.publication.value.publication;
          && row.subtaskId == input.receipt.subtaskId
          && row.taskId == db.subtasks[row.subtaskId].taskId
          && row.generationId == db.subtasks[row.subtaskId].generationId)
  }

  /** How the supervisor reports the end of a run. Without a receipt the report
      is that the launch failed or that the run found itself stale; success and
      a broken contract are reported after the landing that recorded them. */
  predicate OwnReport(db: Database, event: Event) {
    && event.attemptId in db.dispatch
    && event.taskId == db.dispatch[event.attemptId].taskId
    && event.subtaskId == db.dispatch[event.attemptId].subtaskId
    && match event.id
       case OutcomeOf(a) =>
         a == event.attemptId
         && (event.completed ==> a in db.receipts && db.receipts[a].terminalState == Completed)
       case ContractOf(a) => a == event.attemptId && a in db.receipts && !event.completed
       case OtherEvent(_) => true
  }

  /** A landing that says completed comes from the attempt's own run. */
  predicate OwnAction(w: World, action: Action) {
    action.Commit? ==>
      match action.step
      case Land(input) =>
        OwnLanding(w.db, input) && (input.event.completed ==> input.receipt.attemptId in w.runs)
      case Report(event) => OwnReport(w.db, event)
      case _ => true
  }

  ghost predicate Leads(w: World, action: Action, texts: Texts, later: World) {
    OwnAction(w, action) && later == Act(w, action, texts)
  }

  /** Action `k` leads from world `k` to the next. */
  ghost predicate Moves(worlds: seq<World>, actions: seq<Action>, texts: Texts, k: nat)
    requires k < |actions| && |worlds| == |actions| + 1
  {
    Leads(worlds[k], actions[k], texts, worlds[k + 1])
  }

  /** The worlds that a schedule of actions leads through. */
  ghost predicate IsRun(worlds: seq<World>, actions: seq<Action>, texts: Texts) {
    |worlds| == |actions| + 1 && forall k :: 0 <= k < |actions| ==> Moves(worlds, actions, texts, k)
  }

  lemma RunsJoin(before: seq<World>, first: seq<Action>, after: seq<World>, second: seq<Action>, texts: Texts)
    requires IsRun(before, first, texts) && IsRun(after, second, texts) && after[0] == before[|first|]
    ensures IsRun(before + after[1..], first + second, texts)
  {
    var worlds, actions := before + after[1..], first + second;
    forall k | 0 <= k < |actions|
      ensures Moves(worlds, actions, texts, k)
    {
      if k < |first| {
        assert Moves(before, first, texts, k);
      } else {
        assert Moves(after, second, texts, k - |first|);
      }
    }
  }

  /** Publications belong to their Subtask, and Subtasks of the active revision
      to its generation. */
  ghost predicate Coherent(db: Database) {
    && (forall p :: p in db.publications ==>
          var row := db.publications[p];
          && row.subtaskId in db.subtasks
          && row.taskId == db.subtasks[row.subtaskId].taskId
          && row.generationId == db.subtasks[row.subtaskId].generationId)
    && (forall s :: s in db.subtasks && InActiveRevision(db, db.subtasks[s]) ==>
          db.subtasks[s].generationId == db.revisions[db.subtasks[s].taskId].generationId)
  }

  predicate InActiveRevision(db: Database, subtask: Subtask) {
    subtask.taskId in db.revisions && subtask.graphRevision == db.revisions[subtask.taskId].revision
  }

  /** A receipt comes with a settled dispatch item and an outcome event of its
      attempt; an event that says completed, with a receipt that says so. */
  predicate IsSealed(a: Id, receipt: Option<Receipt>, item: Option<Dispatch>,
                     outcome: Option<Event>, contract: Option<Event>)
  {
    && (receipt.Some? ==>
          && item.Some? && Settled(item.value) && receipt.value.attemptId == a
          && (outcome.Some? || (contract.Some? && receipt.value.terminalState != Completed)))
    && (outcome.Some? ==>
          && outcome.value.attemptId == a
          && (outcome.value.completed ==> receipt.Some? && receipt.value.terminalState == Completed))
    && (contract.Some? ==> contract.value.attemptId == a && !contract.value.completed)
  }

  predicate AttemptSealed(db: Database, a: Id) {
    IsSealed(a, Lookup(db.receipts, a), Lookup(db.dispatch, a),
             Lookup(db.inbox, OutcomeOf(a)), Lookup(db.inbox, ContractOf(a)))
  }

  ghost predicate Sealed(db: Database) {
    forall a :: AttemptSealed(db, a)
  }

  /** Steps that write neither Subtasks nor publications. */
  predicate Elsewhere(step: Step) {
    step.MoveTask? || step.AddDispatch? || step.Claim? || step.MarkRunning? || step.MarkCancelled?
    || step.Unclaim? || step.Report?
  }

  /** Subtasks, publications, revisions and receipts are the same. */
  predicate SameRows(db: Database, later: Database) {
    later.subtasks == db.subtasks && later.publications == db.publications
    && later.revisions == db.revisions && later.receipts == db.receipts
  }

  lemma DispatchKeepsRows(db: Database, a: Id, from: set<DispatchStatus>, to: DispatchStatus)
    ensures SameRows(db, SetDispatch(db, a, from, to))
  {
  }

  lemma ElsewhereKeepsRows(db: Database, step: Step, texts: Texts)
    requires Elsewhere(step)
    ensures SameRows(db, Apply(db, step, texts))
  {
    match step
    case Claim(a) => DispatchKeepsRows(db, a, {PendingLaunch}, Launching);
    case MarkRunning(a) => DispatchKeepsRows(db, a, {Launching}, Launched);
    case MarkCancelled(a) => DispatchKeepsRows(db, a, {Cancelling}, DispatchCancelled);
    case Unclaim(a) => DispatchKeepsRows(db, a, {Launching}, PendingLaunch);
    case _ =>
  }

  predicate SamePlace(a: Subtask, b: Subtask) {
    a.taskId == b.taskId && a.generationId == b.generationId && a.graphRevision == b.graphRevision
  }

  lemma CancellationIsCoherent(db: Database, ids: set<Id>, scope: Scope)
    requires Coherent(db)
    ensures Coherent(RequestCancellation(CancelRows(db, ids), scope))
  {
    var after := RequestCancellation(CancelRows(db, ids), scope);
    assert forall s :: s in db.subtasks ==> SamePlace(after.subtasks[s], db.subtasks[s]);
  }

  lemma LandingIsCoherent(db: Database, input: Landing, texts: Texts)
    requires Coherent(db) && CanLand(db, input) && OwnLanding(db, input)
    ensures Coherent(AfterLanding(db, input, texts))
  {
    var after := AfterLanding(db, input, texts);
    assert forall s :: s in db.subtasks ==> SamePlace(after.subtasks[s], db.subtasks[s]);
  }

  lemma SubtaskWriteIsCoherent(db: Database, s: Id, status: SubtaskStatus, error: Option<Text>)
    requires Coherent(db)
    ensures Coherent(UpdateStatus(db, s, status, error))
  {
    var after := UpdateStatus(db, s, status, error);
    assert forall t :: t in db.subtasks ==> SamePlace(after.subtasks[t], db.subtasks[t]);
  }

  lemma PublicationWriteIsCoherent(db: Database, p: Id, row: Publication)
    requires Coherent(db) && p in db.publications
    requires row.taskId == db.publications[p].taskId && row.generationId == db.publications[p].generationId
    requires row.subtaskId == db.publications[p].subtaskId
    ensures Coherent(db.(publications := db.publications[p := row]))
  {
  }

  lemma PublicationStatusIsCoherent(db: Database, p: Id, from: P.Status, to: P.Status)
    requires Coherent(db)
    ensures Coherent(SetPublication(db, p, from, to))
  {
    if p in db.publications {
      PublicationWriteIsCoherent(db, p, db.publications[p].(status := to));
    }
  }

  lemma BothWritesAreCoherent(db: Database, written: Database, p: Id, from: P.Status,
                       status: SubtaskStatus, error: Option<Text>)
    requires Coherent(db) && Coherent(written)
    ensures Coherent(WithSubtask(db, written, p, from, status, error))
  {
    if HasStatus(db, p, from) {
      SubtaskWriteIsCoherent(written, db.publications[p].subtaskId, status, error);
    }
  }

  lemma AnswerStepIsCoherent(db: Database, step: Step, texts: Texts)
    requires Coherent(db) && (step.Approve? || step.Deny? || step.Reissue? || step.RecoverApplying?)
    ensures Coherent(Apply(db, step, texts))
  {
    var p := step.publicationId;
    match step
    case Approve(_) => PublicationStatusIsCoherent(db, p, P.AwaitingApproval, P.Pending);
    case Deny(_, denial) =>
      PublicationStatusIsCoherent(db, p, P.AwaitingApproval, P.Denied);
      BothWritesAreCoherent(db, SetPublication(db, p, P.AwaitingApproval, P.Denied), p, P.AwaitingApproval,
                            Blocked, Some(denial));
    case Reissue(_, candidate, request) =>
      if p in db.publications {
        PublicationWriteIsCoherent(db, p, db.publications[p].(
          status := P.AwaitingApproval, candidateCommit := candidate, permissionRequestId := request));
      }
      BothWritesAreCoherent(db, Reissued(db, p, candidate, request), p, P.Parked, AwaitingIntegration, None);
    case RecoverApplying(_) => PublicationStatusIsCoherent(db, p, P.Applying, P.Pending);
  }

  lemma SubtaskStepIsCoherent(db: Database, step: Step, texts: Texts)
    requires step.RecoverSubtask? || step.BlockSubtask? || step.UnblockSubtask?
    requires Coherent(db)
    ensures Coherent(Apply(db, step, texts))
  {
    match step
    case RecoverSubtask(s, note) => SubtaskWriteIsCoherent(db, s, Ready, Some(note));
    case BlockSubtask(s, note) => SubtaskWriteIsCoherent(db, s, Blocked, Some(note));
    case UnblockSubtask(s) => SubtaskWriteIsCoherent(db, s, Ready, None);
  }

  lemma CancelStepIsCoherent(db: Database, step: Step, texts: Texts)
    requires Coherent(db) && (step.CancelTask? || step.CancelSubtasks?)
    ensures Coherent(Apply(db, step, texts))
  {
    match step
    case CancelTask(t, g) =>
      if CanCancelTask(db, t, g) {
        var marked := db.(tasks := db.tasks[t := TaskCancelled]);
        CancellationIsCoherent(marked, TaskClosure(db, t), Scope(t, ActiveGeneration(db, t), None));
      }
    case CancelSubtasks(t, g, r, expected) =>
      CancellationIsCoherent(db, expected.Keys, Scope(t, Some(g), Some(expected.Keys)));
  }

  lemma StepIsCoherent(db: Database, step: Step, texts: Texts)
    requires Coherent(db) && (step.Land? ==> OwnLanding(db, step.input))
    ensures Coherent(Apply(db, step, texts))
  {
    match step
    case Land(input) =>
      if CanLand(db, input) {
        LandingIsCoherent(db, input, texts);
      }
    case CancelTask(_, _) => CancelStepIsCoherent(db, step, texts);
    case CancelSubtasks(_, _, _, _) => CancelStepIsCoherent(db, step, texts);
    case Approve(_) => AnswerStepIsCoherent(db, step, texts);
    case Deny(_, _) => AnswerStepIsCoherent(db, step, texts);
    case Reissue(_, _, _) => AnswerStepIsCoherent(db, step, texts);
    case RecoverApplying(_) => AnswerStepIsCoherent(db, step, texts);
    case RecoverSubtask(_, _) => SubtaskStepIsCoherent(db, step, texts);
    case BlockSubtask(_, _) => SubtaskStepIsCoherent(db, step, texts);
    case UnblockSubtask(_) => SubtaskStepIsCoherent(db, step, texts);
    case SettlePublication(p) => PublicationStatusIsCoherent(db, p, P.Cancelling, P.Cancelled);
    case _ => ElsewhereKeepsRows(db, step, texts);
  }

  lemma ActionIsCoherent(w: World, action: Action, texts: Texts)
    requires Coherent(w.db) && OwnAction(w, action)
    ensures Coherent(Act(w, action, texts).db)
  {
    match action
    case Commit(step) => StepIsCoherent(w.db, step, texts);
    case StartSubtask(a) =>
      if a in w.db.dispatch && w.db.dispatch[a].subtaskId in w.db.subtasks {
        var s := w.db.dispatch[a].subtaskId;
        SubtaskWriteIsCoherent(w.db, s, Running, w.db.subtasks[s].error);
      }
    case BeginPublish(p) => PublicationStatusIsCoherent(w.db, p, P.Pending, P.Applying);
    case FinishPublish(p) =>
      PublicationStatusIsCoherent(w.db, p, P.Applying, P.Integrated);
      BothWritesAreCoherent(w.db, SetPublication(w.db, p, P.Applying, P.Integrated), p, P.Applying, Done, None);
    case FailPublish(p) => PublicationStatusIsCoherent(w.db, p, P.Applying, P.Pending);
    case ParkStale(p, note) =>
      PublicationStatusIsCoherent(w.db, p, P.Applying, P.Parked);
      if p in w.db.publications {
        SubtaskWriteIsCoherent(SetPublication(w.db, p, P.Applying, P.Parked), w.db.publications[p].subtaskId,
                          Ready, Some(note));
      }
    case _ =>
  }

  // ------------------------------------------------ what every action keeps

  /** Cancelled, or only waiting for its process to be gone. */
  predicate CancelledAttempt(db: Database, a: Id) {
    a in db.dispatch && (db.dispatch[a].status == Cancelling || db.dispatch[a].status == DispatchCancelled)
  }

  /** Attempts and publications never change their Subtask, a cancelled attempt
      stays cancelled, and a settled one settled. */
  ghost predicate Evolves(db: Database, later: Database) {
    && (forall a :: a in db.dispatch ==>
          && a in later.dispatch && later.dispatch[a].subtaskId == db.dispatch[a].subtaskId
          && (CancelledAttempt(db, a) ==> CancelledAttempt(later, a))
          && (Settled(db.dispatch[a]) ==> Settled(later.dispatch[a])))
    && (forall p :: p in db.publications ==>
          p in later.publications && later.publications[p].subtaskId == db.publications[p].subtaskId)
  }

  /** What processes hold in memory has its row. */
  ghost predicate Known(w: World) {
    && (forall a :: a in w.launches ==> a in w.db.dispatch)
    && (forall p :: p in w.workers ==> p in w.db.publications)
  }

  lemma SameRowsEvolve(db: Database, later: Database)
    requires later.dispatch == db.dispatch && later.publications == db.publications
    ensures Evolves(db, later)
  {
  }

  lemma LandingEvolves(db: Database, input: Landing, texts: Texts)
    requires CanLand(db, input)
    ensures Evolves(db, AfterLanding(db, input, texts))
  {
  }

  lemma CancellationEvolves(db: Database, marked: Database, scope: Scope)
    requires marked.dispatch == db.dispatch && marked.publications == db.publications
    ensures Evolves(db, RequestCancellation(marked, scope))
  {
  }

  lemma ItemWriteEvolves(db: Database, a: Id, row: Dispatch)
    requires a in db.dispatch && row.subtaskId == db.dispatch[a].subtaskId
    requires db.dispatch[a].status == Cancelling ==> row.status == Cancelling || row.status == DispatchCancelled
    requires Settled(db.dispatch[a]) ==> row.status == db.dispatch[a].status
    ensures Evolves(db, db.(dispatch := db.dispatch[a := row]))
  {
  }

  lemma DispatchWriteEvolves(db: Database, a: Id, from: set<DispatchStatus>, to: DispatchStatus)
    requires to == DispatchCancelled || (Cancelling !in from && DispatchCancelled !in from)
    requires Terminal !in from
    ensures Evolves(db, SetDispatch(db, a, from, to))
  {
    SameRowsEvolve(db, db);
    if a in db.dispatch && db.dispatch[a].status in from {
      ItemWriteEvolves(db, a, db.dispatch[a].(status := to));
    }
  }

  lemma RunEndEvolves(db: Database, a: Id, summary: Text)
    ensures Evolves(db, RunEnded(db, a)) && Evolves(db, RunFailed(db, a, summary))
  {
    SameRowsEvolve(db, db);
    if a in db.dispatch {
      ItemWriteEvolves(db, a, AfterMarkTerminal(db.dispatch[a], None));
      ItemWriteEvolves(db, a, AfterMarkUncertain(db.dispatch[a], summary));
    }
  }

  lemma PublicationWriteEvolves(db: Database, p: Id, row: Publication)
    requires p in db.publications && row.subtaskId == db.publications[p].subtaskId
    ensures Evolves(db, db.(publications := db.publications[p := row]))
  {
  }

  lemma PublicationStatusEvolves(db: Database, p: Id, from: P.Status, to: P.Status)
    ensures Evolves(db, SetPublication(db, p, from, to))
  {
    if p in db.publications {
      PublicationWriteEvolves(db, p, db.publications[p].(status := to));
    }
  }

  /** A Subtask write changes neither attempts nor publications. */
  lemma WithSubtaskEvolves(db: Database, written: Database, p: Id, from: P.Status,
                           status: SubtaskStatus, error: Option<Text>)
    requires Evolves(db, written)
    ensures Evolves(db, WithSubtask(db, written, p, from, status, error))
  {
    SameRowsEvolve(db, db);
    var both := WithSubtask(db, written, p, from, status, error);
    assert both == db || (both.dispatch == written.dispatch && both.publications == written.publications);
  }

  lemma DenialEvolves(db: Database, p: Id, denial: Text, texts: Texts)
    ensures Evolves(db, Apply(db, Deny(p, denial), texts))
  {
    PublicationStatusEvolves(db, p, P.AwaitingApproval, P.Denied);
    WithSubtaskEvolves(db, SetPublication(db, p, P.AwaitingApproval, P.Denied), p, P.AwaitingApproval,
                       Blocked, Some(denial));
  }

  lemma ReissueEvolves(db: Database, p: Id, candidate: Id, request: Id, texts: Texts)
    ensures Evolves(db, Apply(db, Reissue(p, candidate, request), texts))
  {
    if p in db.publications {
      PublicationWriteEvolves(db, p, db.publications[p].(
        status := P.AwaitingApproval, candidateCommit := candidate, permissionRequestId := request));
    }
    WithSubtaskEvolves(db, Reissued(db, p, candidate, request), p, P.Parked, AwaitingIntegration, None);
  }

  lemma AnswerStepEvolves(db: Database, step: Step, texts: Texts)
    requires step.Approve? || step.Deny? || step.Reissue? || step.RecoverApplying? || step.SettlePublication?
    ensures Evolves(db, Apply(db, step, texts))
  {
    match step
    case Approve(p) => PublicationStatusEvolves(db, p, P.AwaitingApproval, P.Pending);
    case Deny(p, denial) => DenialEvolves(db, p, denial, texts);
    case Reissue(p, candidate, request) => ReissueEvolves(db, p, candidate, request, texts);
    case RecoverApplying(p) => PublicationStatusEvolves(db, p, P.Applying, P.Pending);
    case SettlePublication(p) => PublicationStatusEvolves(db, p, P.Cancelling, P.Cancelled);
  }

  lemma DispatchStepEvolves(db: Database, step: Step, texts: Texts)
    requires step.Claim? || step.MarkRunning? || step.MarkCancelled? || step.Unclaim?
    ensures Evolves(db, Apply(db, step, texts))
  {
    match step
    case Claim(a) => DispatchWriteEvolves(db, a, {PendingLaunch}, Launching);
    case MarkRunning(a) => DispatchWriteEvolves(db, a, {Launching}, Launched);
    case MarkCancelled(a) => DispatchWriteEvolves(db, a, {Cancelling}, DispatchCancelled);
    case Unclaim(a) => DispatchWriteEvolves(db, a, {Launching}, PendingLaunch);
  }

  lemma NewDispatchEvolves(db: Database, a: Id, item: Dispatch, texts: Texts)
    ensures Evolves(db, Apply(db, AddDispatch(a, item), texts))
  {
  }

  lemma StepEvolves(db: Database, step: Step, texts: Texts)
    ensures Evolves(db, Apply(db, step, texts))
  {
    match step
    case Land(input) =>
      if CanLand(db, input) {
        LandingEvolves(db, input, texts);
      }
    case CancelTask(t, _) =>
      var marked := CancelRows(db.(tasks := db.tasks[t := TaskCancelled]), TaskClosure(db, t));
      CancellationEvolves(db, marked, Scope(t, ActiveGeneration(db, t), None));
    case CancelSubtasks(t, g, _, expected) =>
      CancellationEvolves(db, CancelRows(db, expected.Keys), Scope(t, Some(g), Some(expected.Keys)));
    case AddDispatch(a, item) => NewDispatchEvolves(db, a, item, texts);
    case Claim(_) => DispatchStepEvolves(db, step, texts);
    case MarkRunning(_) => DispatchStepEvolves(db, step, texts);
    case MarkCancelled(_) => DispatchStepEvolves(db, step, texts);
    case Unclaim(_) => DispatchStepEvolves(db, step, texts);
    case Approve(_) => AnswerStepEvolves(db, step, texts);
    case Deny(_, _) => AnswerStepEvolves(db, step, texts);
    case Reissue(_, _, _) => AnswerStepEvolves(db, step, texts);
    case RecoverApplying(_) => AnswerStepEvolves(db, step, texts);
    case SettlePublication(_) => AnswerStepEvolves(db, step, texts);
    case _ => SameRowsEvolve(db, Apply(db, step, texts));
  }

  lemma ActionEvolves(w: World, action: Action, texts: Texts)
    ensures Evolves(w.db, Act(w, action, texts).db)
  {
    match action
    case Commit(step) => StepEvolves(w.db, step, texts);
    case EndRun(a) => RunEndEvolves(w.db, a, texts.pauseSummary);
    case FailRun(a, summary) => RunEndEvolves(w.db, a, summary);
    case BeginPublish(p) => PublicationStatusEvolves(w.db, p, P.Pending, P.Applying);
    case FinishPublish(p) =>
      PublicationStatusEvolves(w.db, p, P.Applying, P.Integrated);
      WithSubtaskEvolves(w.db, SetPublication(w.db, p, P.Applying, P.Integrated), p, P.Applying, Done, None);
    case FailPublish(p) => PublicationStatusEvolves(w.db, p, P.Applying, P.Pending);
    case ParkStale(p, note) =>
      PublicationStatusEvolves(w.db, p, P.Applying, P.Parked);
      var written := SetPublication(w.db, p, P.Applying, P.Parked);
      assert Parked(w.db, p, note).dispatch == written.dispatch;
      assert Parked(w.db, p, note).publications == written.publications;
    case _ => SameRowsEvolve(w.db, Act(w, action, texts).db);
  }

  // ------------------------------------------------- what an attempt leaves

  /** Receipts and outcome events are written once. */
  ghost predicate Extends(db: Database, later: Database) {
    && (forall a :: a in db.receipts ==> a in later.receipts && later.receipts[a] == db.receipts[a])
    && (forall e :: e in db.inbox ==> e in later.inbox && later.inbox[e] == db.inbox[e])
  }

  lemma SameInboxExtends(db: Database, later: Database)
    requires later.receipts == db.receipts && later.inbox == db.inbox
    ensures Extends(db, later)
  {
  }

  lemma ExtendsTransitively(a: Database, b: Database, c: Database)
    requires Extends(a, b) && Extends(b, c)
    ensures Extends(a, c)
  {
  }

  lemma LandingExtends(db: Database, input: Landing, texts: Texts)
    requires CanLand(db, input)
    ensures Extends(db, AfterLanding(db, input, texts))
  {
  }

  /** Receipts are the landing's alone; the inbox takes reports, too. */
  predicate SameInbox(db: Database, later: Database) {
    later.receipts == db.receipts && later.inbox == db.inbox
  }

  lemma AnswerKeepsInbox(db: Database, step: Step, texts: Texts)
    requires step.Deny? || step.Reissue?
    ensures SameInbox(db, Apply(db, step, texts))
  {
    match step
    case Deny(p, denial) => assert SameInbox(db, SetPublication(db, p, P.AwaitingApproval, P.Denied));
    case Reissue(p, candidate, request) => assert SameInbox(db, Reissued(db, p, candidate, request));
  }

  lemma CancellationKeepsInbox(db: Database, step: Step, texts: Texts)
    requires step.CancelTask? || step.CancelSubtasks?
    ensures SameInbox(db, Apply(db, step, texts))
  {
  }

  lemma ElsewhereKeepsInbox(db: Database, step: Step, texts: Texts)
    requires Elsewhere(step) && !step.Report?
    ensures SameInbox(db, Apply(db, step, texts))
  {
  }

  lemma RowStepKeepsInbox(db: Database, step: Step, texts: Texts)
    requires step.Approve? || step.RecoverApplying? || step.SettlePublication? || step.RecoverSubtask?
             || step.BlockSubtask? || step.UnblockSubtask?
    ensures SameInbox(db, Apply(db, step, texts))
  {
  }

  lemma StepKeepsInbox(db: Database, step: Step, texts: Texts)
    requires !step.Land? && !step.Report?
    ensures SameInbox(db, Apply(db, step, texts))
  {
    if step.Deny? || step.Reissue? {
      AnswerKeepsInbox(db, step, texts);
    } else if step.CancelTask? || step.CancelSubtasks? {
      CancellationKeepsInbox(db, step, texts);
    } else if Elsewhere(step) {
      ElsewhereKeepsInbox(db, step, texts);
    } else {
      RowStepKeepsInbox(db, step, texts);
    }
  }

  lemma ActionKeepsInbox(w: World, action: Action, texts: Texts)
    requires !action.Commit?
    ensures SameInbox(w.db, Act(w, action, texts).db)
  {
    match action
    case FinishPublish(p) => assert SameInbox(w.db, SetPublication(w.db, p, P.Applying, P.Integrated));
    case ParkStale(p, note) => assert SameInbox(w.db, SetPublication(w.db, p, P.Applying, P.Parked));
    case _ =>
  }

  lemma ActionExtends(w: World, action: Action, texts: Texts)
    ensures Extends(w.db, Act(w, action, texts).db)
  {
    match action
    case Commit(step) =>
      if step.Land? {
        if CanLand(w.db, step.input) {
          LandingExtends(w.db, step.input, texts);
        }
      } else if !step.Report? {
        StepKeepsInbox(w.db, step, texts);
        SameInboxExtends(w.db, Apply(w.db, step, texts));
      }
    case _ =>
      ActionKeepsInbox(w, action, texts);
      SameInboxExtends(w.db, Act(w, action, texts).db);
  }

  /** The attempt's row is still there, and settled if it was. */
  predicate StaysSettled(item: Option<Dispatch>, later: Option<Dispatch>) {
    item.Some? && Settled(item.value) ==> later.Some? && Settled(later.value)
  }

  lemma SettledByEvolving(db: Database, later: Database, a: Id)
    requires Evolves(db, later)
    ensures StaysSettled(Lookup(db.dispatch, a), Lookup(later.dispatch, a))
  {
  }

  lemma SameInboxSeals(db: Database, later: Database)
    requires Sealed(db) && SameInbox(db, later) && Evolves(db, later)
    ensures Sealed(later)
  {
    forall a
      ensures AttemptSealed(later, a)
    {
      assert AttemptSealed(db, a);
      SettledByEvolving(db, later, a);
    }
  }

  /** Receipt and event of a landing agree. */
  predicate Agree(a: Id, receipt: Receipt, event: Event) {
    && receipt.attemptId == a && event.attemptId == a
    && (event.id == OutcomeOf(a) || (event.id == ContractOf(a) && !event.completed))
    && (event.completed ==> receipt.terminalState == Completed)
    && (receipt.terminalState == Completed ==> event.id == OutcomeOf(a))
  }

  lemma LandingAgrees(db: Database, input: Landing, texts: Texts)
    requires CanLand(db, input) && OwnLanding(db, input)
    ensures Agree(input.receipt.attemptId, LandedReceipt(db, input, texts), LandedEvent(db, input, texts))
  {
  }

  lemma OthersStaySealed(db: Database, later: Database, a: Id, receipt: Receipt, event: Event, b: Id)
    requires a != b && Agree(a, receipt, event) && AttemptSealed(db, b)
    requires StaysSettled(Lookup(db.dispatch, b), Lookup(later.dispatch, b))
    requires later.receipts == db.receipts[a := receipt] && later.inbox == Enqueued(db, event).inbox
    ensures AttemptSealed(later, b)
  {
    assert Lookup(later.receipts, b) == Lookup(db.receipts, b);
    assert Lookup(later.inbox, OutcomeOf(b)) == Lookup(db.inbox, OutcomeOf(b));
    assert Lookup(later.inbox, ContractOf(b)) == Lookup(db.inbox, ContractOf(b));
  }

  lemma LandedIsSealed(db: Database, later: Database, a: Id, receipt: Receipt, event: Event)
    requires Agree(a, receipt, event) && a !in db.receipts && AttemptSealed(db, a)
    requires a in later.dispatch && Settled(later.dispatch[a])
    requires later.receipts == db.receipts[a := receipt] && later.inbox == Enqueued(db, event).inbox
    ensures AttemptSealed(later, a)
  {
    assert Lookup(later.receipts, a) == Some(receipt);
    EnqueuedIsFirst(db, event, OutcomeOf(a));
    EnqueuedIsFirst(db, event, ContractOf(a));
  }

  /** The inbox keeps the first event of an id. */
  lemma EnqueuedIsFirst(db: Database, event: Event, id: EventId)
    ensures Lookup(Enqueued(db, event).inbox, id)
            == if id != event.id || id in db.inbox then Lookup(db.inbox, id) else Some(event)
  {
  }

  lemma LandingSeals(db: Database, input: Landing, texts: Texts)
    requires Sealed(db) && CanLand(db, input) && OwnLanding(db, input)
    ensures Sealed(AfterLanding(db, input, texts))
  {
    LandingAgrees(db, input, texts);
    LandingEvolves(db, input, texts);
    var a, receipt, event := input.receipt.attemptId, LandedReceipt(db, input, texts), LandedEvent(db, input, texts);
    var later := AfterLanding(db, input, texts);
    forall b
      ensures AttemptSealed(later, b)
    {
      assert AttemptSealed(db, b);
      SettledByEvolving(db, later, b);
      if a == b {
        LandedIsSealed(db, later, a, receipt, event);
      } else {
        OthersStaySealed(db, later, a, receipt, event, b);
      }
    }
  }

  lemma ReportSeals(db: Database, event: Event)
    requires Sealed(db) && OwnReport(db, event)
    ensures Sealed(Enqueued(db, event))
  {
    forall b
      ensures AttemptSealed(Enqueued(db, event), b)
    {
      assert AttemptSealed(db, b);
      EnqueuedIsFirst(db, event, OutcomeOf(b));
      EnqueuedIsFirst(db, event, ContractOf(b));
    }
  }

  lemma ActionSeals(w: World, action: Action, texts: Texts)
    requires Sealed(w.db) && OwnAction(w, action)
    ensures Sealed(Act(w, action, texts).db)
  {
    if action.Commit? && action.step.Land? {
      if CanLand(w.db, action.step.input) {
        LandingSeals(w.db, action.step.input, texts);
      }
    } else if action.Commit? && action.step.Report? {
      ReportSeals(w.db, action.step.event);
    } else {
      ActionEvolves(w, action, texts);
      if action.Commit? {
        StepKeepsInbox(w.db, action.step, texts);
      } else {
        ActionKeepsInbox(w, action, texts);
      }
      SameInboxSeals(w.db, Act(w, action, texts).db);
    }
  }

  lemma MoveExtends(worlds: seq<World>, actions: seq<Action>, texts: Texts, k: nat)
    requires IsRun(worlds, actions, texts) && k < |actions|
    ensures Extends(worlds[k].db, worlds[k + 1].db)
    ensures Sealed(worlds[k].db) ==> Sealed(worlds[k + 1].db)
    ensures Coherent(worlds[k].db) ==> Coherent(worlds[k + 1].db)
  {
    assert Moves(worlds, actions, texts, k);
    ActionExtends(worlds[k], actions[k], texts);
    if Sealed(worlds[k].db) {
      ActionSeals(worlds[k], actions[k], texts);
    }
    if Coherent(worlds[k].db) {
      ActionIsCoherent(worlds[k], actions[k], texts);
    }
  }

  /** Receipts and outcome events are never changed once they are written. */
  lemma {:induction false} RunExtends(worlds: seq<World>, actions: seq<Action>, texts: Texts, k: nat, n: nat)
    requires IsRun(worlds, actions, texts) && k <= n <= |actions|
    ensures Extends(worlds[k].db, worlds[n].db)
    decreases n
  {
    if k < n {
      RunExtends(worlds, actions, texts, k, n - 1);
      MoveExtends(worlds, actions, texts, n - 1);
      ExtendsTransitively(worlds[k].db, worlds[n - 1].db, worlds[n].db);
    }
  }

  lemma {:induction false} RunIsCoherent(worlds: seq<World>, actions: seq<Action>, texts: Texts, n: nat)
    requires IsRun(worlds, actions, texts) && n <= |actions| && Coherent(worlds[0].db)
    ensures Coherent(worlds[n].db)
    decreases n
  {
    if n > 0 {
      RunIsCoherent(worlds, actions, texts, n - 1);
      MoveExtends(worlds, actions, texts, n - 1);
    }
  }

  /** In every interleaving of landings, reports, cancellations, pauses, launches
      and publications: each receipt comes with a settled dispatch item and an
      outcome event, each event that says completed with a receipt that says so,
      and neither receipts nor events ever change. */
  lemma {:induction false} SealedOnce(worlds: seq<World>, actions: seq<Action>, texts: Texts, n: nat)
    requires IsRun(worlds, actions, texts) && n <= |actions| && Sealed(worlds[0].db)
    ensures Sealed(worlds[n].db) && Extends(worlds[0].db, worlds[n].db)
    decreases n
  {
    RunExtends(worlds, actions, texts, 0, n);
    if n > 0 {
      SealedOnce(worlds, actions, texts, n - 1);
      MoveExtends(worlds, actions, texts, n - 1);
    }
  }

  /** The publications after a landing that the executor won: the candidate's
      row under its id, awaiting approval; or the repaired row, pending, with the
      repaired commit; or as before. */
  ghost predicate Published(before: map<Id, Publication>, input: Landing, after: map<Id, Publication>) {
    && (input.publication.Some? ==>
          && input.publication.value.id !in before
          && after == before[input.publication.value.id :=
               input.publication.value.publication.(status := P.AwaitingApproval)])
    && (input.publication.None? && input.repairPublication.Some? ==>
          && input.repairPublication.value.publicationId in before
          && after == before[input.repairPublication.value.publicationId :=
               before[input.repairPublication.value.publicationId].(
                 status := P.Pending, candidateCommit := input.repairPublication.value.candidateCommit)])
    && (input.publication.None? && input.repairPublication.None? ==> after == before)
  }

  /** Who wins a landing: cancellation of Task, Subtask or item over a pause of
      the Task, and either over the executor. */
  ghost predicate Wins(db: Database, input: Landing, cancellation: bool, pause: bool)
    requires input.receipt.attemptId in db.dispatch
    requires input.receipt.taskId in db.tasks && input.receipt.subtaskId in db.subtasks
  {
    && (cancellation <==> db.tasks[input.receipt.taskId] == TaskCancelled
                          || db.subtasks[input.receipt.subtaskId].status == Cancelled
                          || db.dispatch[input.receipt.attemptId].status in {Cancelling, DispatchCancelled})
    && (pause <==> !cancellation && db.tasks[input.receipt.taskId] == TaskParked)
  }

  /** What a landing writes depends on who won. The executor's outcome, good or
      bad, counts only if it moves its Subtask, in a Task that runs; a pause puts
      the Subtask back and rewrites receipt and event; a cancellation keeps the
      receipt and rewrites the event. The item ends, and nothing else changes.
      The inbox takes the event where it has none of that id. */
  lemma WinnerDecides(db: Database, input: Landing, texts: Texts)
    requires CanLand(db, input)
    ensures Wins(db, input, CancellationWins(db, input), PauseWins(db, input))
    ensures ExecutorWins(db, input) <==> !CancellationWins(db, input) && !PauseWins(db, input)
    ensures var a := input.receipt.attemptId; var s := input.receipt.subtaskId;
            var after := AfterLanding(db, input, texts); var event := LandedEvent(db, input, texts);
            && a !in db.receipts && after.receipts == db.receipts[a := LandedReceipt(db, input, texts)]
            && after.tasks == db.tasks && after.revisions == db.revisions
            && after.dispatch.Keys == db.dispatch.Keys && after.subtasks.Keys == db.subtasks.Keys
            && (forall b :: b in db.dispatch && b != a ==> after.dispatch[b] == db.dispatch[b])
            && (forall t :: t in db.subtasks && t != s ==> after.subtasks[t] == db.subtasks[t])
            && after.dispatch[a].status
               == (if db.dispatch[a].status in {Cancelling, DispatchCancelled} then DispatchCancelled else Terminal)
            && event.attemptId == a && event.id == input.event.id
            && after.inbox.Keys == db.inbox.Keys + {event.id}
            && (forall e :: e in db.inbox ==> after.inbox[e] == db.inbox[e])
            && (event.id !in db.inbox ==> after.inbox[event.id] == event)
            && (ExecutorWins(db, input) ==>
                  && event == input.event && after.receipts[a] == input.receipt
                  && db.tasks[input.receipt.taskId] == TaskRunning
                  && db.subtasks[s].status == input.expectedSubtaskStatus
                  && after.subtasks[s]
                     == db.subtasks[s].(status := input.nextSubtaskStatus, error := input.subtaskError)
                  && Published(db.publications, input, after.publications))
            && (CancellationWins(db, input) ==>
                  && after.subtasks == db.subtasks && after.publications == db.publications
                  && after.receipts[a] == input.receipt
                  && Rewritten(db.dispatch[a], input, event)
                  && event.failure == Some(Failing(StaleKind, CancelledOrStale, texts.cancellationSummary)))
            && (PauseWins(db, input) ==>
                  && db.subtasks[s].status == input.expectedSubtaskStatus
                  && after.subtasks[s] == db.subtasks[s].(status := Ready, error := None)
                  && after.publications == db.publications
                  && Rewritten(db.dispatch[a], input, event)
                  && event.failure == Some(Failing(CancelledKind, TaskPaused, texts.pauseSummary))
                  && after.receipts[a] == input.receipt.(
                       terminalState := CancelledOrStaleState, errorCode := Some(TaskPaused),
                       errorDetail := Some(texts.pauseSummary), failure := event.failure))
  {
  }

  /** A failure in the name of the attempt's item, at the time of the landing. */
  ghost predicate Rewritten(item: Dispatch, input: Landing, event: Event) {
    && !event.completed && event.occurredAt == input.now && event.sessionId == input.event.sessionId
    && event.correlationId == item.decisionId && event.causationId == item.decisionId
    && event.taskId == item.taskId && event.subtaskId == item.subtaskId && event.origin == item.origin
  }

  // ------------------------------------------------------ the cancel fence

  predicate Inert(status: P.Status) {
    status == P.Cancelled || status == P.Cancelling || status == P.Integrated
  }

  /** Cancelled, with nothing left that a landing or an approval could move. */
  ghost predicate Fenced(db: Database, s: Id) {
    && s in db.subtasks && db.subtasks[s].status == Cancelled
    && (forall p :: p in db.publications && db.publications[p].subtaskId == s ==> Inert(db.publications[p].status))
  }

  /** The publications of a Subtask are the same rows with the same candidates. */
  ghost predicate SamePublications(db: Database, later: Database, s: Id) {
    && (forall p :: p in db.publications && db.publications[p].subtaskId == s ==>
          p in later.publications && later.publications[p].subtaskId == s
          && later.publications[p].candidateCommit == db.publications[p].candidateCommit)
    && (forall p :: p in later.publications && later.publications[p].subtaskId == s ==>
          p in db.publications && db.publications[p].subtaskId == s)
  }

  /** What a cancellation makes of an item: nothing is left to launch, and what
      may have a process waits for its end. */
  predicate ItemCancelled(before: Dispatch, after: Dispatch) {
    && after.(status := before.status) == before
    && (before.status == PendingLaunch ==> after.status == DispatchCancelled)
    && (before.status in {Launching, Launched, Uncertain} ==> after.status == Cancelling)
    && (before.status in {Cancelling, Terminal, DispatchCancelled} ==> after.status == before.status)
  }

  /** What it makes of a publication: what is not in Git's hands is cancelled,
      what is waits, and what has ended stays. */
  predicate RowCancelled(before: Publication, after: Publication) {
    && after.(status := before.status) == before
    && (before.status in {P.AwaitingApproval, P.Pending, P.Conflicted, P.Parked, P.Denied} ==>
          after.status == P.Cancelled)
    && (before.status in {P.Applying, P.Uncertain} ==> after.status == P.Cancelling)
    && (before.status in {P.Integrated, P.Cancelling, P.Cancelled} ==> after.status == before.status)
  }

  /** Items and publications of a Task, of one generation or of all, and of some
      Subtasks or of all, are cancelled; all others stay. */
  ghost predicate DependentsCancelled(
    db: Database, after: Database, taskId: Id, generationId: Option<Id>, ids: Option<set<Id>>)
  {
    && after.dispatch.Keys == db.dispatch.Keys && after.publications.Keys == db.publications.Keys
    && (forall a :: a in db.dispatch ==>
          var item := db.dispatch[a];
          if item.taskId == taskId && (generationId.Some? ==> item.generationId == generationId.value)
             && (ids.Some? ==> item.subtaskId in ids.value)
          then ItemCancelled(item, after.dispatch[a]) else after.dispatch[a] == item)
    && (forall p :: p in db.publications ==>
          var row := db.publications[p];
          if row.taskId == taskId && (generationId.Some? ==> row.generationId == generationId.value)
             && (ids.Some? ==> row.subtaskId in ids.value)
          then RowCancelled(row, after.publications[p]) else after.publications[p] == row)
  }

  /** Every row that cancelling a Task writes, and no other. */
  lemma TaskCancellationWrites(db: Database, taskId: Id, generationId: Option<Id>)
    requires CanCancelTask(db, taskId, generationId)
    ensures db.tasks[taskId] !in {TaskDone, TaskArchived, TaskCancelled}
    ensures generationId == if taskId in db.revisions then Some(db.revisions[taskId].generationId) else None
    ensures var after := AfterCancelTask(db, taskId);
            && after.tasks == db.tasks[taskId := TaskCancelled]
            && after.revisions == db.revisions && SameInbox(db, after)
            && after.subtasks.Keys == db.subtasks.Keys
            && (forall s :: s in db.subtasks ==>
                  var row := db.subtasks[s];
                  after.subtasks[s] ==
                    if row.taskId == taskId && row.status !in {Done, Cancelled}
                       && (taskId in db.revisions ==> row.graphRevision == db.revisions[taskId].revision)
                    then row.(status := Cancelled) else row)
            && DependentsCancelled(db, after, taskId, generationId, None)
  {
  }

  /** Every row that cancelling Subtasks writes, and no other. */
  lemma SubtaskCancellationWrites(
    db: Database, taskId: Id, generationId: Id, revision: int, expected: map<Id, SubtaskStatus>)
    ensures CanCancelSubtasks(db, taskId, generationId, revision, expected) <==>
              && taskId in db.tasks && taskId in db.revisions
              && db.revisions[taskId].generationId == generationId && db.revisions[taskId].revision == revision
              && forall s :: s in expected ==>
                   s in db.subtasks && db.subtasks[s].taskId == taskId
                   && db.subtasks[s].generationId == generationId && db.subtasks[s].status == expected[s]
    ensures var after := AfterCancelSubtasks(db, taskId, generationId, expected.Keys);
            && after.tasks == db.tasks && after.revisions == db.revisions && SameInbox(db, after)
            && after.subtasks.Keys == db.subtasks.Keys
            && (forall s :: s in db.subtasks ==>
                  after.subtasks[s] == if s in expected then db.subtasks[s].(status := Cancelled) else db.subtasks[s])
            && DependentsCancelled(db, after, taskId, Some(generationId), Some(expected.Keys))
  {
  }

  /** A Task cancellation cancels every unfinished Subtask of the active graph,
      and fences it exactly when its publications that can still move are of the
      active generation. */
  lemma TaskFenceIffCovered(db: Database, taskId: Id, generationId: Option<Id>, s: Id)
    requires CanCancelTask(db, taskId, generationId) && s in TaskClosure(db, taskId)
    ensures var after := AfterCancelTask(db, taskId);
            && s in after.subtasks && after.subtasks[s].status == Cancelled
            && (Fenced(after, s) <==>
                  forall p :: p in db.publications && db.publications[p].subtaskId == s ==>
                    || Inert(db.publications[p].status)
                    || (db.publications[p].taskId == taskId
                        && (generationId.Some? ==> db.publications[p].generationId == generationId.value)))
  {
    var after := AfterCancelTask(db, taskId);
    forall p | p in db.publications && db.publications[p].subtaskId == s
      ensures p in after.publications && after.publications[p].subtaskId == s
      ensures Inert(after.publications[p].status) <==>
              || Inert(db.publications[p].status)
              || (db.publications[p].taskId == taskId
                  && (generationId.Some? ==> db.publications[p].generationId == generationId.value))
    {
    }
  }

  /** A Task cancellation fences every unfinished Subtask of the active graph,
      leaves the finished ones finished, and touches no other Task. */
  lemma TaskCancellationFences(db: Database, taskId: Id, generationId: Option<Id>)
    requires Coherent(db) && CanCancelTask(db, taskId, generationId)
    ensures var after := AfterCancelTask(db, taskId);
            && after.tasks == db.tasks[taskId := TaskCancelled]
            && (forall s :: s in ActiveSubtasks(db, taskId) ==>
                  if db.subtasks[s].status == Done then after.subtasks[s] == db.subtasks[s] else Fenced(after, s))
            && (forall s :: s in db.subtasks && s !in ActiveSubtasks(db, taskId) ==>
                  after.subtasks[s] == db.subtasks[s])
            && (set s | s in db.subtasks && db.subtasks[s].status == Done)
               == (set s | s in after.subtasks && after.subtasks[s].status == Done)
  {
    var after := AfterCancelTask(db, taskId);
    forall s | s in ActiveSubtasks(db, taskId) && db.subtasks[s].status != Done
      ensures Fenced(after, s)
    {
      forall p | p in after.publications && after.publications[p].subtaskId == s
        ensures Inert(after.publications[p].status)
      {
        assert InActiveRevision(db, db.subtasks[s]) || taskId !in db.revisions;
      }
    }
  }

  /** A Subtask cancellation commits only on exactly the expected rows, and
      then fences all of them and changes no other Subtask. */
  lemma SubtaskCancellationFences(
    db: Database, taskId: Id, generationId: Id, revision: int, expected: map<Id, SubtaskStatus>)
    requires Coherent(db) && CanCancelSubtasks(db, taskId, generationId, revision, expected)
    ensures var after := AfterCancelSubtasks(db, taskId, generationId, expected.Keys);
            && (forall s :: s in expected ==> Fenced(after, s))
            && (forall s :: s in db.subtasks && s !in expected ==> after.subtasks[s] == db.subtasks[s])
  {
    var after := AfterCancelSubtasks(db, taskId, generationId, expected.Keys);
    forall s | s in expected ensures Fenced(after, s) {
      forall p | p in after.publications && after.publications[p].subtaskId == s
        ensures Inert(after.publications[p].status)
      {
        assert db.publications[p].generationId == db.subtasks[s].generationId;
      }
    }
  }

  lemma LandingRespectsFence(db: Database, input: Landing, texts: Texts, s: Id)
    requires Coherent(db) && Fenced(db, s) && CanLand(db, input) && OwnLanding(db, input)
    ensures Fenced(AfterLanding(db, input, texts), s)
    ensures SamePublications(db, AfterLanding(db, input, texts), s)
    ensures input.receipt.subtaskId == s ==>
              CancellationWins(db, input) && AfterLanding(db, input, texts).subtasks == db.subtasks
  {
  }

  lemma CancellationRespectsFence(db: Database, ids: set<Id>, scope: Scope, s: Id)
    requires Fenced(db, s)
    ensures Fenced(RequestCancellation(CancelRows(db, ids), scope), s)
    ensures SamePublications(db, RequestCancellation(CancelRows(db, ids), scope), s)
  {
  }

  lemma SameRowsRespectFence(db: Database, later: Database, s: Id)
    requires Fenced(db, s) && later.subtasks == db.subtasks && later.publications == db.publications
    ensures Fenced(later, s) && SamePublications(db, later, s)
  {
  }

  lemma OtherRowRespectsFence(db: Database, p: Id, row: Publication, s: Id)
    requires Fenced(db, s) && p in db.publications && db.publications[p].subtaskId != s && row.subtaskId != s
    ensures Fenced(db.(publications := db.publications[p := row]), s)
    ensures SamePublications(db, db.(publications := db.publications[p := row]), s)
  {
  }

  lemma PublicationWriteRespectsFence(db: Database, p: Id, from: P.Status, to: P.Status, s: Id)
    requires Fenced(db, s) && (Inert(from) ==> Inert(to))
    ensures Fenced(SetPublication(db, p, from, to), s) && SamePublications(db, SetPublication(db, p, from, to), s)
  {
    var later := SetPublication(db, p, from, to);
    if later == db {
      SameRowsRespectFence(db, later, s);
    } else if db.publications[p].subtaskId != s {
      OtherRowRespectsFence(db, p, db.publications[p].(status := to), s);
    }
  }

  lemma SubtaskWriteRespectsFence(db: Database, t: Id, status: SubtaskStatus, error: Option<Text>, s: Id)
    requires Fenced(db, s) && t != s
    ensures Fenced(UpdateStatus(db, t, status, error), s)
    ensures SamePublications(db, UpdateStatus(db, t, status, error), s)
  {
  }

  lemma AnswerStepRespectsFence(db: Database, step: Step, texts: Texts, s: Id)
    requires Fenced(db, s) && (step.Approve? || step.Deny? || step.Reissue? || step.RecoverApplying?)
    ensures Fenced(Apply(db, step, texts), s)
    ensures SamePublications(db, Apply(db, step, texts), s)
  {
    var p := step.publicationId;
    if Apply(db, step, texts) == db {
      SameRowsRespectFence(db, db, s);
    } else {
      var row := db.publications[p];
      assert row.subtaskId != s;
      match step
      case Approve(_) => PublicationWriteRespectsFence(db, p, P.AwaitingApproval, P.Pending, s);
      case Deny(_, denial) =>
        PublicationWriteRespectsFence(db, p, P.AwaitingApproval, P.Denied, s);
        SubtaskWriteRespectsFence(SetPublication(db, p, P.AwaitingApproval, P.Denied), row.subtaskId,
                                  Blocked, Some(denial), s);
      case Reissue(_, candidate, request) =>
        OtherRowRespectsFence(db, p, row.(
          status := P.AwaitingApproval, candidateCommit := candidate, permissionRequestId := request), s);
        SubtaskWriteRespectsFence(Reissued(db, p, candidate, request), row.subtaskId, AwaitingIntegration, None, s);
      case RecoverApplying(_) => PublicationWriteRespectsFence(db, p, P.Applying, P.Pending, s);
    }
  }

  lemma RowStepRespectsFence(db: Database, step: Step, texts: Texts, s: Id)
    requires Fenced(db, s) && !step.Land? && !step.CancelTask? && !step.CancelSubtasks?
    ensures Fenced(Apply(db, step, texts), s)
    ensures SamePublications(db, Apply(db, step, texts), s)
  {
    if step.Approve? || step.Deny? || step.Reissue? || step.RecoverApplying? {
      AnswerStepRespectsFence(db, step, texts, s);
    } else if step.SettlePublication? {
      PublicationWriteRespectsFence(db, step.publicationId, P.Cancelling, P.Cancelled, s);
    } else if step.RecoverSubtask? || step.BlockSubtask? || step.UnblockSubtask? {
      if Apply(db, step, texts) == db {
        SameRowsRespectFence(db, db, s);
      } else {
        SubtaskWriteRespectsFence(db, step.subtaskId, Apply(db, step, texts).subtasks[step.subtaskId].status,
                                  Apply(db, step, texts).subtasks[step.subtaskId].error, s);
      }
    } else {
      ElsewhereKeepsRows(db, step, texts);
      SameRowsRespectFence(db, Apply(db, step, texts), s);
    }
  }

  lemma StepRespectsFence(db: Database, step: Step, texts: Texts, s: Id)
    requires Coherent(db) && Fenced(db, s) && (step.Land? ==> OwnLanding(db, step.input))
    ensures Fenced(Apply(db, step, texts), s)
    ensures SamePublications(db, Apply(db, step, texts), s)
  {
    match step
    case Land(input) =>
      if CanLand(db, input) {
        LandingRespectsFence(db, input, texts, s);
      }
    case CancelTask(t, g) =>
      if CanCancelTask(db, t, g) {
        CancellationRespectsFence(db.(tasks := db.tasks[t := TaskCancelled]), TaskClosure(db, t),
                                  Scope(t, ActiveGeneration(db, t), None), s);
      }
    case CancelSubtasks(t, g, r, expected) =>
      CancellationRespectsFence(db, expected.Keys, Scope(t, Some(g), Some(expected.Keys)), s);
    case _ =>
      RowStepRespectsFence(db, step, texts, s);
  }

  // ------------------------------------------------------ writes in flight

  /** A launch or a publication worker of the Subtask may still write its row. */
  ghost predicate InFlight(w: World, s: Id) {
    || (exists a :: a in w.launches && a in w.db.dispatch && w.db.dispatch[a].subtaskId == s)
    || (exists p :: p in w.workers && p in w.db.publications && w.db.publications[p].subtaskId == s)
  }

  /** What may come into flight by an action. */
  lemma NewInFlight(w: World, action: Action, texts: Texts, a: Id, p: Id)
    ensures var later := Act(w, action, texts);
            && (a in later.launches ==>
                  || a in w.launches
                  || (action.CheckLaunch? && action.attemptId == a && Launchable(w.db, a, action.primary)))
            && (p in later.workers ==> p in w.workers || Unfenced(w.db, p))
  {
  }

  lemma StaysKnown(w: World, action: Action, texts: Texts)
    requires Known(w)
    ensures Known(Act(w, action, texts))
  {
    var later := Act(w, action, texts);
    ActionEvolves(w, action, texts);
    forall a | a in later.launches
      ensures a in later.db.dispatch
    {
      NewInFlight(w, action, texts, a, a);
    }
    forall p | p in later.workers
      ensures p in later.db.publications
    {
      NewInFlight(w, action, texts, p, p);
    }
  }

  lemma StaysOutOfFlight(w: World, action: Action, texts: Texts, s: Id)
    requires Known(w) && Fenced(w.db, s) && !InFlight(w, s)
    ensures !InFlight(Act(w, action, texts), s)
  {
    var later := Act(w, action, texts);
    ActionEvolves(w, action, texts);
    forall a | a in later.launches && a in later.db.dispatch
      ensures later.db.dispatch[a].subtaskId != s
    {
      NewInFlight(w, action, texts, a, a);
    }
    forall p | p in later.workers && p in later.db.publications
      ensures later.db.publications[p].subtaskId != s
    {
      NewInFlight(w, action, texts, p, p);
    }
  }

  lemma ActionRespectsFence(w: World, action: Action, texts: Texts, s: Id)
    requires Coherent(w.db) && Known(w) && Fenced(w.db, s) && !InFlight(w, s) && OwnAction(w, action)
    ensures Fenced(Act(w, action, texts).db, s)
    ensures SamePublications(w.db, Act(w, action, texts).db, s)
  {
    match action
    case Commit(step) => StepRespectsFence(w.db, step, texts, s);
    case StartSubtask(a) =>
      if a in w.launches && w.db.dispatch[a].subtaskId in w.db.subtasks {
        var t := w.db.dispatch[a].subtaskId;
        SubtaskWriteRespectsFence(w.db, t, Running, w.db.subtasks[t].error, s);
      } else {
        SameRowsRespectFence(w.db, w.db, s);
      }
    case BeginPublish(p) =>
      PublicationWriteRespectsFence(w.db, p, P.Pending, P.Applying, s);
      SameRowsRespectFence(w.db, w.db, s);
    case FinishPublish(p) => FinishRespectsFence(w, p, s);
    case FailPublish(p) =>
      PublicationWriteRespectsFence(w.db, p, P.Applying, P.Pending, s);
      SameRowsRespectFence(w.db, w.db, s);
    case ParkStale(p, note) => ParkRespectsFence(w, p, note, s);
    case _ => SameRowsRespectFence(w.db, w.db, s);
  }

  lemma FinishRespectsFence(w: World, p: Id, s: Id)
    requires Known(w) && Fenced(w.db, s) && !InFlight(w, s)
    ensures p in w.workers ==>
              var written := SetPublication(w.db, p, P.Applying, P.Integrated);
              var later := WithSubtask(w.db, written, p, P.Applying, Done, None);
              Fenced(later, s) && SamePublications(w.db, later, s)
    ensures Fenced(w.db, s) && SamePublications(w.db, w.db, s)
  {
    SameRowsRespectFence(w.db, w.db, s);
    if p in w.workers {
      var written := SetPublication(w.db, p, P.Applying, P.Integrated);
      PublicationWriteRespectsFence(w.db, p, P.Applying, P.Integrated, s);
      SubtaskWriteRespectsFence(written, w.db.publications[p].subtaskId, Done, None, s);
    }
  }

  lemma ParkRespectsFence(w: World, p: Id, note: Text, s: Id)
    requires Known(w) && Fenced(w.db, s) && !InFlight(w, s)
    ensures p in w.workers ==> Fenced(Parked(w.db, p, note), s) && SamePublications(w.db, Parked(w.db, p, note), s)
    ensures Fenced(w.db, s) && SamePublications(w.db, w.db, s)
  {
    SameRowsRespectFence(w.db, w.db, s);
    if p in w.workers {
      var written := SetPublication(w.db, p, P.Applying, P.Parked);
      PublicationWriteRespectsFence(w.db, p, P.Applying, P.Parked, s);
      SubtaskWriteRespectsFence(written, w.db.publications[p].subtaskId, Ready, Some(note), s);
    }
  }

  lemma SamePublicationsTransitively(a: Database, b: Database, c: Database, s: Id)
    requires SamePublications(a, b, s) && SamePublications(b, c, s)
    ensures SamePublications(a, c, s)
  {
  }

  /** Still fenced, with nothing in flight and the same publications. */
  ghost predicate FenceKept(before: World, after: World, s: Id) {
    Known(after) && Fenced(after.db, s) && !InFlight(after, s) && SamePublications(before.db, after.db, s)
  }

  lemma FenceKeptTransitively(a: World, b: World, c: World, s: Id)
    requires FenceKept(a, b, s) && FenceKept(b, c, s)
    ensures FenceKept(a, c, s)
  {
    SamePublicationsTransitively(a.db, b.db, c.db, s);
  }

  lemma MoveRespectsFence(worlds: seq<World>, actions: seq<Action>, texts: Texts, k: nat, s: Id)
    requires IsRun(worlds, actions, texts) && k < |actions|
    requires Coherent(worlds[k].db) && Known(worlds[k]) && Fenced(worlds[k].db, s) && !InFlight(worlds[k], s)
    ensures FenceKept(worlds[k], worlds[k + 1], s)
  {
    assert Moves(worlds, actions, texts, k);
    StaysKnown(worlds[k], actions[k], texts);
    StaysOutOfFlight(worlds[k], actions[k], texts, s);
    ActionRespectsFence(worlds[k], actions[k], texts, s);
  }

  /** Once fenced with nothing of it in flight, in every later interleaving:
      the Subtask stays cancelled, no publication of it is created, repaired,
      approved or reopened, and nothing of it comes into flight. */
  lemma {:induction false} FenceHolds(worlds: seq<World>, actions: seq<Action>, texts: Texts, n: nat, s: Id)
    requires IsRun(worlds, actions, texts) && n <= |actions|
    requires Coherent(worlds[0].db) && Known(worlds[0])
    requires Fenced(worlds[0].db, s) && !InFlight(worlds[0], s)
    ensures FenceKept(worlds[0], worlds[n], s)
    decreases n
  {
    if n == 0 {
      SameRowsRespectFence(worlds[0].db, worlds[0].db, s);
    } else {
      FenceHolds(worlds, actions, texts, n - 1, s);
      RunIsCoherent(worlds, actions, texts, n - 1);
      MoveRespectsFence(worlds, actions, texts, n - 1, s);
      FenceKeptTransitively(worlds[0], worlds[n - 1], worlds[n], s);
    }
  }

  /** A run from the world after which the Subtask is not fenced any more. */
  ghost predicate BreaksFence(w: World, worlds: seq<World>, actions: seq<Action>, texts: Texts, s: Id) {
    IsRun(worlds, actions, texts) && worlds[0] == w && !Fenced(worlds[|actions|].db, s)
  }

  /** The one action that breaks a fence. */
  lemma InFlightBreaksFence(w: World, texts: Texts, s: Id, note: Text)
    requires Fenced(w.db, s) && InFlight(w, s)
    ensures exists worlds, actions :: |actions| == 1 && BreaksFence(w, worlds, actions, texts, s)
  {
    var action: Action;
    if a :| a in w.launches && a in w.db.dispatch && w.db.dispatch[a].subtaskId == s {
      action := StartSubtask(a);
    } else {
      var p :| p in w.workers && p in w.db.publications && w.db.publications[p].subtaskId == s;
      action := ParkStale(p, note);
    }
    var worlds, actions := [w, Act(w, action, texts)], [action];
    assert Moves(worlds, actions, texts, 0);
    assert BreaksFence(w, worlds, actions, texts, s);
  }

  /** A fence holds over every run exactly when no Subtask write of a launch or
      of a publication worker was in flight when it was set up. */
  lemma FenceHoldsIffNothingInFlight(w: World, texts: Texts, s: Id, note: Text)
    requires Coherent(w.db) && Known(w) && Fenced(w.db, s)
    ensures (exists worlds, actions :: BreaksFence(w, worlds, actions, texts, s)) <==> InFlight(w, s)
  {
    if InFlight(w, s) {
      InFlightBreaksFence(w, texts, s, note);
    } else {
      forall worlds, actions | IsRun(worlds, actions, texts) && worlds[0] == w
        ensures !BreaksFence(w, worlds, actions, texts, s)
      {
        FenceHolds(worlds, actions, texts, |actions|, s);
      }
    }
  }

  /** A launch passes its check, the Task is cancelled, and the launch goes on:
      the cancelled Subtask runs again. */
  lemma LaunchOutrunsCancellation(w: World, texts: Texts, a: Id, generationId: Option<Id>) returns (worlds: seq<World>)
    requires Coherent(w.db) && Launchable(w.db, a, true)
    requires CanCancelTask(w.db, w.db.dispatch[a].taskId, generationId)
    requires w.db.dispatch[a].subtaskId in ActiveSubtasks(w.db, w.db.dispatch[a].taskId)
    ensures var t, s := w.db.dispatch[a].taskId, w.db.dispatch[a].subtaskId;
            && IsRun(worlds, [CheckLaunch(a, true), Commit(CancelTask(t, generationId)), StartSubtask(a)], texts)
            && worlds[0] == w
            && Fenced(worlds[2].db, s) && InFlight(worlds[2], s)
            && worlds[3].db.tasks == w.db.tasks[t := TaskCancelled]
            && s in worlds[3].db.subtasks && worlds[3].db.subtasks[s].status == Running
  {
    var t, s := w.db.dispatch[a].taskId, w.db.dispatch[a].subtaskId;
    var actions := [CheckLaunch(a, true), Commit(CancelTask(t, generationId)), StartSubtask(a)];
    var checked := Act(w, actions[0], texts);
    var fenced := Act(checked, actions[1], texts);
    worlds := [w, checked, fenced, Act(fenced, actions[2], texts)];
    assert Moves(worlds, actions, texts, 0) && Moves(worlds, actions, texts, 1) && Moves(worlds, actions, texts, 2);
    TaskCancellationFences(w.db, t, generationId);
    StepEvolves(w.db, CancelTask(t, generationId), texts);
    assert fenced.db == AfterCancelTask(w.db, t) && s in fenced.db.subtasks;
  }

  // ---------------------------------------------------- cancelled attempts

  /** A cancellation leaves no attempt in its scope that could still land for
      the executor: each one is cancelled or has settled before. */
  lemma CancellationCatchesAttempts(db: Database, scope: Scope, a: Id)
    requires a in db.dispatch
    requires Covers(scope, db.dispatch[a].taskId, db.dispatch[a].generationId, db.dispatch[a].subtaskId)
    ensures CancelledAttempt(RequestCancellation(db, scope), a) || db.dispatch[a].status == Terminal
  {
  }

  ghost predicate IsLandingOf(action: Action, a: Id) {
    action.Commit? && action.step.Land? && action.step.input.receipt.attemptId == a
  }

  /** A landing that moved no Subtask and created or repaired no publication. */
  predicate Silent(before: World, after: World) {
    after.db.subtasks == before.db.subtasks && after.db.publications == before.db.publications
  }

  lemma LandingIsSilent(w: World, action: Action, texts: Texts, a: Id)
    requires CancelledAttempt(w.db, a) && IsLandingOf(action, a)
    ensures Silent(w, Act(w, action, texts))
  {
    assert CanLand(w.db, action.step.input) ==> CancellationWins(w.db, action.step.input);
  }

  lemma MoveIsSilent(worlds: seq<World>, actions: seq<Action>, texts: Texts, k: nat, a: Id)
    requires IsRun(worlds, actions, texts) && k < |actions| && CancelledAttempt(worlds[k].db, a)
    ensures CancelledAttempt(worlds[k + 1].db, a)
    ensures IsLandingOf(actions[k], a) ==> Silent(worlds[k], worlds[k + 1])
  {
    assert Moves(worlds, actions, texts, k);
    ActionEvolves(worlds[k], actions[k], texts);
    if IsLandingOf(actions[k], a) {
      LandingIsSilent(worlds[k], actions[k], texts, a);
    }
  }

  /** A cancelled attempt stays cancelled over every run, and none of its
      landings moves a Subtask or creates or repairs a publication, even when a
      launch in flight has made its Subtask run again. */
  lemma {:induction false} CancelledAttemptIsSilent(
    worlds: seq<World>, actions: seq<Action>, texts: Texts, n: nat, a: Id)
    requires IsRun(worlds, actions, texts) && n <= |actions| && CancelledAttempt(worlds[0].db, a)
    ensures CancelledAttempt(worlds[n].db, a)
    ensures forall k :: 0 <= k < n && IsLandingOf(actions[k], a) ==> Silent(worlds[k], worlds[k + 1])
    decreases n
  {
    if n > 0 {
      CancelledAttemptIsSilent(worlds, actions, texts, n - 1, a);
      MoveIsSilent(worlds, actions, texts, n - 1, a);
    }
  }

  /** The landing does not compare a candidate's Subtask with the receipt's.
      Exactly a candidate of another Subtask gets past the fence. */
  lemma FenceMissesForeignCandidates(db: Database, input: Landing, texts: Texts, s: Id)
    requires Fenced(db, s) && CanLand(db, input)
    ensures (exists p :: p in AfterLanding(db, input, texts).publications && p !in db.publications
               && AfterLanding(db, input, texts).publications[p].subtaskId == s)
            <==> (ExecutorWins(db, input) && input.receipt.subtaskId != s
                  && input.publication.Some? && input.publication.value.publication.subtaskId == s)
  {
    var after := AfterLanding(db, input, texts);
    if ExecutorWins(db, input) && input.publication.Some? {
      assert input.publication.value.id in after.publications;
    }
  }

  /** Such a landing exists: an attempt of one Subtask lands a candidate that
      names a cancelled one. */
  lemma ForeignCandidateLands(texts: Texts, id: Id, own: Id, s: Id, text: Text) returns (db: Database, input: Landing)
    requires own != s
    ensures Coherent(db) && Sealed(db) && Fenced(db, s) && CanLand(db, input)
    ensures id in AfterLanding(db, input, texts).publications && id !in db.publications
    ensures AfterLanding(db, input, texts).publications[id].subtaskId == s
  {
    var origin := Origin(id, id, None);
    db := Database(
      map[id := TaskRunning],
      map[own := Subtask(id, id, 1, Running, None), s := Subtask(id, id, 1, Cancelled, None)],
      map[], map[id := Dispatch(id, own, id, id, origin, Launched, None)], map[], map[], map[]);
    var receipt := Receipt(id, id, own, Completed, None, None, None, text);
    var event := Event(OutcomeOf(id), id, id, 0, id, id, own, id, true, origin, None);
    var candidate := Candidate(id, Publication(id, id, s, id, id, P.AwaitingApproval));
    input := Landing(receipt, Running, AwaitingIntegration, None, event, Some(candidate), None, 0);
    assert ExecutorWins(db, input) && SubtaskAsExpected(db, input, TaskRunning) && CandidateFits(db, candidate);
  }

  // ---------------------------------------------------------- the services

  class ControlPlane {
    const texts: Texts
    var db: Database

    constructor (db: Database, texts: Texts)
      ensures this.db == db && this.texts == texts
    {
      this.db := db;
      this.texts := texts;
    }

    /** AttemptTerminalService.land, statement by statement. */
    method Land(input: Landing) returns (result: Result<Winner, LandingError>)
      modifies this`db
      ensures result.Failure? <==> LandingFault(old(db), input).Some?
      ensures result.Failure? ==> Some(result.error) == LandingFault(old(db), input) && db == old(db)
      ensures result.Success? ==>
                && db == AfterLanding(old(db), input, texts)
                && result.value == Winner(CancellationWins(old(db), input), PauseWins(old(db), input))
    {
      var tx := db;
      var a, taskId, subtaskId := input.receipt.attemptId, input.receipt.taskId, input.receipt.subtaskId;
      if a !in tx.dispatch {
        return Failure(DispatchNotFound);
      }
      var dispatch := tx.dispatch[a];
      if dispatch.taskId != taskId || dispatch.subtaskId != subtaskId || input.event.attemptId != a
         || input.event.taskId != taskId || input.event.subtaskId != subtaskId {
        return Failure(IdentityMismatch);
      }
      if input.publication.Some? && input.repairPublication.Some? {
        return Failure(CreateAndRepair);
      }
      if taskId !in tx.tasks || subtaskId !in tx.subtasks {
        return Failure(FenceFactsNotFound);
      }
      var cancellationWon := tx.tasks[taskId] == TaskCancelled || tx.subtasks[subtaskId].status == Cancelled
                             || dispatch.status == Cancelling || dispatch.status == DispatchCancelled;
      var pauseWon := !cancellationWon && tx.tasks[taskId] == TaskParked;
      var receipt := if pauseWon then PausedReceipt(input.receipt, texts) else input.receipt;
      if a in tx.receipts {
        return Failure(ReceiptExists);
      }
      tx := tx.(receipts := tx.receipts[a := receipt]);
      if pauseWon {
        if !SubtaskAsExpected(tx, input, TaskParked) {
          return Failure(PauseFenceChanged);
        }
        tx := tx.(subtasks := tx.subtasks[subtaskId := tx.subtasks[subtaskId].(status := Ready, error := None)]);
      } else if !cancellationWon {
        if !SubtaskAsExpected(tx, input, TaskRunning) {
          return Failure(FenceChanged);
        }
        tx := tx.(subtasks := tx.subtasks[subtaskId :=
          tx.subtasks[subtaskId].(status := input.nextSubtaskStatus, error := input.subtaskError)]);
        if input.publication.Some? {
          var candidate := input.publication.value;
          if !CandidateFits(tx, candidate) {
            return Failure(PublicationExists);
          }
          tx := tx.(publications := tx.publications[
            candidate.id := candidate.publication.(status := P.AwaitingApproval)]);
        }
        if input.repairPublication.Some? {
          var repair := input.repairPublication.value;
          if repair.publicationId in tx.publications && tx.publications[repair.publicationId].status == P.Conflicted {
            tx := tx.(publications := tx.publications[repair.publicationId :=
              tx.publications[repair.publicationId].(status := P.Pending, candidateCommit := repair.candidateCommit)]);
          }
          if !(repair.publicationId in tx.publications
               && tx.publications[repair.publicationId].taskId == taskId
               && tx.publications[repair.publicationId].subtaskId == subtaskId
               && tx.publications[repair.publicationId].status == P.Pending
               && tx.publications[repair.publicationId].candidateCommit == repair.candidateCommit) {
            return Failure(RepairNotPending);
          }
        }
      }
      tx := tx.(dispatch := tx.dispatch[a := AfterMarkTerminal(dispatch, receipt.errorDetail)]);
      if !Settled(tx.dispatch[a]) {
        return Failure(DispatchNotTerminal);
      }
      var event :=
        if pauseWon then PauseOutcome(input.event, a, dispatch, input.now, texts)
        else if cancellationWon then CancellationOutcome(input.event, a, dispatch, input.now, texts)
        else input.event;
      if event.id !in tx.inbox {
        tx := tx.(inbox := tx.inbox[event.id := event]);
      }
      db := tx;
      return Success(Winner(cancellationWon, pauseWon));
    }

    /** TaskCancellationCoordinator.apply for `cancel_task`: row by row, then
        the dependent rows, all in one transaction. The attempts to abort are
        those whose process may still run. */
    method CancelTask(taskId: Id, generationId: Option<Id>)
      returns (result: Result<(set<Id>, set<Id>), CancellationError>)
      modifies this`db
      ensures result.Success? <==> CanCancelTask(old(db), taskId, generationId)
      ensures result.Failure? ==> db == old(db)
      ensures result.Failure? ==>
                result.error == if taskId !in old(db).tasks then TaskNotFound
                                else if old(db).tasks[taskId] in {TaskDone, TaskArchived, TaskCancelled}
                                        && generationId == (if taskId in old(db).revisions
                                                            then Some(old(db).revisions[taskId].generationId) else None)
                                then TaskNotCancellable else GenerationChanged
      ensures result.Success? ==>
                && db == AfterCancelTask(old(db), taskId)
                && result.value.0 == TaskClosure(old(db), taskId)
                && result.value.1 == (set a | a in db.dispatch && db.dispatch[a].status == Cancelling
                                        && old(db).dispatch[a] != db.dispatch[a])
      ensures result.Success? ==>
                && (forall s :: s in result.value.0 <==>
                      && s in old(db).subtasks && old(db).subtasks[s].taskId == taskId
                      && old(db).subtasks[s].status != Done && old(db).subtasks[s].status != Cancelled
                      && (taskId in old(db).revisions ==>
                            old(db).subtasks[s].graphRevision == old(db).revisions[taskId].revision))
                && result.value.1 == (set a | a in old(db).dispatch
                                        && IsOfTask(old(db).dispatch[a], taskId, generationId)
                                        && old(db).dispatch[a].status in {Launching, Launched, Uncertain})
                && (forall a :: a in result.value.1 ==>
                      db.dispatch[a] == old(db).dispatch[a].(status := Cancelling))
    {
      var tx := db;
      if taskId !in tx.tasks {
        return Failure(TaskNotFound);
      }
      if generationId != ActiveGeneration(tx, taskId) {
        return Failure(GenerationChanged);
      }
      if !Cancellable(tx.tasks[taskId]) {
        return Failure(TaskNotCancellable);
      }
      tx := tx.(tasks := tx.tasks[taskId := TaskCancelled]);
      var affected := TaskClosure(tx, taskId);
      tx := CancelEach(tx, affected);
      tx := RequestCancellation(tx, Scope(taskId, generationId, None));
      var cleanup :=
        set a | a in tx.dispatch && tx.dispatch[a].status == Cancelling && db.dispatch[a] != tx.dispatch[a];
      db := tx;
      return Success((affected, cleanup));
    }

    /** TaskCancellationCoordinator.apply for `cancel_subtasks`. */
    method CancelSubtasks(taskId: Id, generationId: Id, revision: int, expected: map<Id, SubtaskStatus>)
      returns (result: Result<set<Id>, CancellationError>)
      modifies this`db
      ensures result.Success? <==> CanCancelSubtasks(old(db), taskId, generationId, revision, expected)
      ensures db == if result.Success?
                    then AfterCancelSubtasks(old(db), taskId, generationId, expected.Keys) else old(db)
      ensures result.Success? ==> result.value == expected.Keys
      ensures result.Failure? ==>
                result.error == if taskId !in old(db).tasks then TaskNotFound
                                else if taskId !in old(db).revisions
                                        || old(db).revisions[taskId].generationId != generationId
                                        || old(db).revisions[taskId].revision != revision
                                then GraphRevisionChanged else ClosureChanged
    {
      var tx := db;
      if taskId !in tx.tasks {
        return Failure(TaskNotFound);
      }
      if taskId !in tx.revisions || tx.revisions[taskId] != Revision(generationId, revision) {
        return Failure(GraphRevisionChanged);
      }
      if exists s | s in expected ::
           !(s in tx.subtasks && tx.subtasks[s].taskId == taskId
             && tx.subtasks[s].generationId == generationId && tx.subtasks[s].status == expected[s]) {
        return Failure(ClosureChanged);
      }
      tx := CancelEach(tx, expected.Keys);
      db := RequestCancellation(tx, Scope(taskId, Some(generationId), Some(expected.Keys)));
      return Success(expected.Keys);
    }
  }

  lemma CancelOneMore(db: Database, done: set<Id>, id: Id)
    requires id in db.subtasks
    ensures var before := CancelRows(db, done);
            && id in before.subtasks
            && before.(subtasks := before.subtasks[id := before.subtasks[id].(status := Cancelled)])
               == CancelRows(db, done + {id})
  {
    var before := CancelRows(db, done);
    var after := before.subtasks[id := before.subtasks[id].(status := Cancelled)];
    assert after == CancelRows(db, done + {id}).subtasks;
  }

  lemma NothingToCancel(db: Database)
    ensures CancelRows(db, {}) == db
  {
    assert CancelRows(db, {}).subtasks == db.subtasks;
  }

  /** The loop of `updateStatus(id, 'cancelled')` calls. */
  method CancelEach(db: Database, ids: set<Id>) returns (after: Database)
    requires ids <= db.subtasks.Keys
    ensures after == CancelRows(db, ids)
  {
    after := db;
    var todo := ids;
    ghost var done: set<Id> := {};
    NothingToCancel(db);
    while todo != {}
      invariant done !! todo && done + todo == ids
      invariant after == CancelRows(db, done)
      decreases |todo|
    {
      PickOne(todo);
      var id :| id in todo;
      CancelOneMore(db, done, id);
      after := after.(subtasks := after.subtasks[id := after.subtasks[id].(status := Cancelled)]);
      todo := todo - {id};
      done := done + {id};
    }
    assert done == ids;
  }

  lemma PickOne(ids: set<Id>)
    requires ids != {}
    ensures exists id :: id in ids
  {
    if forall id: Id :: id !in ids {
      EmptyWithoutMembers(ids);
    }
  }
}
