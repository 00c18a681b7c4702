/**
 What has to be approved before it is published, and the lives of the rows: who
 moves a publication, an item, a Subtask and a Task, and from where
 (src/storage/workspace-publication-repo.ts, src/storage/kernel-dispatch-item-repo.ts,
 src/storage/subtask-repo.ts, and their callers listed in AttemptLanding).
 */
module Approvals {
  import opened Prelude
  import opened AttemptLanding
  import P = PublicationStatus

  predicate Cancels(db: Database, action: Action) {
    && action.Commit?
    && match action.step
       case CancelTask(t, g) => CanCancelTask(db, t, g)
       case CancelSubtasks(t, g, r, expected) => CanCancelSubtasks(db, t, g, r, expected)
       case _ => false
  }

  /** A landing that its executor wins. */
  predicate Delivers(db: Database, action: Action) {
    action.Commit? && action.step.Land? && CanLand(db, action.step.input) && ExecutorWins(db, action.step.input)
  }

  /** Task and Subtask are known, and neither is cancelled. */
  predicate NotCancelled(db: Database, taskId: Id, subtaskId: Id) {
    && taskId in db.tasks && db.tasks[taskId] != TaskCancelled
    && subtaskId in db.subtasks && db.subtasks[subtaskId].status != Cancelled
  }

  predicate MayPublish(db: Database, p: Id) {
    p in db.publications && NotCancelled(db, db.publications[p].taskId, db.publications[p].subtaskId)
  }

  /** A launched item of a running Task, whose own Subtask is ready, or waits for
      a decision where the attempt is not the primary one. */
  predicate MayLaunch(db: Database, a: Id, primary: bool) {
    && a in db.dispatch
    && var item := db.dispatch[a];
       && item.status == Launched && item.taskId in db.tasks && db.tasks[item.taskId] == TaskRunning
       && item.subtaskId in db.subtasks && db.subtasks[item.subtaskId].taskId == item.taskId
       && (primary ==> db.subtasks[item.subtaskId].status == Ready)
       && (!primary ==> db.subtasks[item.subtaskId].status == AwaitingDecision)
  }

  // ------------------------------------------------------------ publications

  predicate Moved(before: Option<Publication>, after: Option<Publication>, from: P.Status, to: P.Status) {
    before.Some? && before.value.status == from && after == Some(before.value.(status := to))
  }

  /** Landing, approval and denial, and a new request after a conflict of bases. */
  predicate AnswerEdge(db: Database, action: Action, p: Id, before: Option<Publication>, after: Option<Publication>) {
    || (Delivers(db, action) && before.None? && after.Some? && after.value.status == P.AwaitingApproval
        && action.step.input.publication.Some? && action.step.input.publication.value.id == p)
    || (Delivers(db, action) && before.Some? && before.value.status in {P.Conflicted, P.Pending}
        && action.step.input.repairPublication.Some? && action.step.input.repairPublication.value.publicationId == p
        && after == Some(before.value.(
             status := P.Pending, candidateCommit := action.step.input.repairPublication.value.candidateCommit)))
    || (action == Commit(Approve(p)) && Moved(before, after, P.AwaitingApproval, P.Pending))
    || (action.Commit? && action.step.Deny? && action.step.publicationId == p
        && Moved(before, after, P.AwaitingApproval, P.Denied))
    || (action.Commit? && action.step.Reissue? && action.step.publicationId == p
        && before.Some? && before.value.status == P.Parked
        && after == Some(before.value.(
             status := P.AwaitingApproval, candidateCommit := action.step.candidateCommit,
             permissionRequestId := action.step.permissionRequestId)))
  }

  /** The worker's moves and what takes them back. */
  predicate WorkEdge(w: World, action: Action, p: Id, before: Option<Publication>, after: Option<Publication>) {
    || (action == BeginPublish(p) && MayPublish(w.db, p) && Moved(before, after, P.Pending, P.Applying))
    || (action == FinishPublish(p) && p in w.workers && Moved(before, after, P.Applying, P.Integrated))
    || (action == FailPublish(p) && p in w.workers && Moved(before, after, P.Applying, P.Pending))
    || (action == Commit(RecoverApplying(p)) && MayPublish(w.db, p) && Moved(before, after, P.Applying, P.Pending))
    || (action.ParkStale? && action.publicationId == p && p in w.workers && Moved(before, after, P.Applying, P.Parked))
    || (action == Commit(SettlePublication(p)) && Moved(before, after, P.Cancelling, P.Cancelled))
  }

  /** Who moves a publication, and along which edge of its life. */
  predicate PublicationEdge(w: World, action: Action, p: Id, before: Option<Publication>, after: Option<Publication>) {
    || after == before
    || AnswerEdge(w.db, action, p, before, after)
    || WorkEdge(w, action, p, before, after)
    || (Cancels(w.db, action) && before.Some? && after.Some? && RowCancelled(before.value, after.value))
  }

  predicate Answers(step: Step) {
    step.Land? || step.Approve? || step.Deny? || step.Reissue?
  }

  predicate SettlesRow(step: Step) {
    step.RecoverApplying? || step.SettlePublication?
  }

  lemma AnswerMoves(w: World, step: Step, texts: Texts, p: Id)
    requires Answers(step)
    ensures PublicationEdge(w, Commit(step), p, Lookup(w.db.publications, p),
                            Lookup(Apply(w.db, step, texts).publications, p))
  {
  }

  lemma SettlementMoves(w: World, step: Step, texts: Texts, p: Id)
    requires SettlesRow(step)
    ensures PublicationEdge(w, Commit(step), p, Lookup(w.db.publications, p),
                            Lookup(Apply(w.db, step, texts).publications, p))
  {
  }

  lemma CancellationMoves(w: World, step: Step, texts: Texts, p: Id)
    requires step.CancelTask? || step.CancelSubtasks?
    ensures PublicationEdge(w, Commit(step), p, Lookup(w.db.publications, p),
                            Lookup(Apply(w.db, step, texts).publications, p))
  {
    match step
    case CancelTask(t, g) =>
      if CanCancelTask(w.db, t, g) {
        TaskCancellationWrites(w.db, t, g);
      }
    case CancelSubtasks(t, g, r, expected) => SubtaskCancellationWrites(w.db, t, g, r, expected);
  }

  lemma StepMoves(w: World, step: Step, texts: Texts, p: Id)
    ensures PublicationEdge(w, Commit(step), p, Lookup(w.db.publications, p),
                            Lookup(Apply(w.db, step, texts).publications, p))
  {
    if Answers(step) {
      AnswerMoves(w, step, texts, p);
    } else if SettlesRow(step) {
      SettlementMoves(w, step, texts, p);
    } else if step.CancelTask? || step.CancelSubtasks? {
      CancellationMoves(w, step, texts, p);
    } else if Elsewhere(step) {
      ElsewhereKeepsRows(w.db, step, texts);
    }
  }

  lemma WriteMoves(db: Database, q: Id, from: P.Status, to: P.Status, p: Id)
    ensures var before := Lookup(db.publications, p);
            var after := Lookup(SetPublication(db, q, from, to).publications, p);
            after == before || (p == q && Moved(before, after, from, to))
  {
  }

  lemma SubtaskWriteKeepsRows(db: Database, written: Database, q: Id, from: P.Status,
                              status: SubtaskStatus, error: Option<Text>)
    ensures WithSubtask(db, written, q, from, status, error).publications
            == if HasStatus(db, q, from) then written.publications else db.publications
  {
  }

  predicate Works(action: Action) {
    action.BeginPublish? || action.FinishPublish? || action.FailPublish? || action.ParkStale?
  }

  lemma WorkerMoves(w: World, action: Action, texts: Texts, p: Id)
    requires Works(action)
    ensures PublicationEdge(w, action, p, Lookup(w.db.publications, p),
                            Lookup(Act(w, action, texts).db.publications, p))
  {
    match action
    case BeginPublish(q) => WriteMoves(w.db, q, P.Pending, P.Applying, p);
    case FinishPublish(q) =>
      WriteMoves(w.db, q, P.Applying, P.Integrated, p);
      SubtaskWriteKeepsRows(w.db, SetPublication(w.db, q, P.Applying, P.Integrated), q, P.Applying, Done, None);
    case FailPublish(q) => WriteMoves(w.db, q, P.Applying, P.Pending, p);
    case ParkStale(q, _) => WriteMoves(w.db, q, P.Applying, P.Parked, p);
  }

  lemma RunsKeepPublications(w: World, action: Action, texts: Texts)
    requires !action.Commit? && !Works(action)
    ensures Act(w, action, texts).db.publications == w.db.publications
  {
  }

  /** Every move of a publication, over every action. */
  lemma PublicationMoves(w: World, action: Action, texts: Texts, p: Id)
    ensures PublicationEdge(w, action, p, Lookup(w.db.publications, p),
                            Lookup(Act(w, action, texts).db.publications, p))
  {
    if action.Commit? {
      StepMoves(w, action.step, texts, p);
    } else if Works(action) {
      WorkerMoves(w, action, texts, p);
    } else {
      RunsKeepPublications(w, action, texts);
    }
  }

  /** The moves that are due: who may make one now. */
  predicate Due(w: World, action: Action, p: Id) {
    && p in w.db.publications
    && var status := w.db.publications[p].status;
       match action
       case Commit(step) =>
         (match step
          case Approve(q) => q == p && status == P.AwaitingApproval
          case Deny(q, _) => q == p && status == P.AwaitingApproval
          case Reissue(q, _, _) => q == p && status == P.Parked
          case RecoverApplying(q) => q == p && status == P.Applying && MayPublish(w.db, p)
          case SettlePublication(q) => q == p && status == P.Cancelling
          case _ => false)
       case BeginPublish(q) => q == p && status == P.Pending && MayPublish(w.db, p)
       case FinishPublish(q) => q == p && status == P.Applying && p in w.workers
       case FailPublish(q) => q == p && status == P.Applying && p in w.workers
       case ParkStale(q, _) => q == p && status == P.Applying && p in w.workers
       case _ => false
  }

  /** A move that is due is made; `PublicationMoves` says where it leads. */
  lemma DueMovesAreMade(w: World, action: Action, texts: Texts, p: Id)
    requires Due(w, action, p)
    ensures Lookup(Act(w, action, texts).db.publications, p) != Some(w.db.publications[p])
  {
    if action.Commit? {
      assert Due(w, Commit(action.step), p);
    }
  }

  // --------------------------------------------------------------- in flight

  /** What is in memory: a worker from the claim of its row until it reports or
      the process dies, a run from its launch until it ends, and a launch from
      its check until it writes or is abandoned. */
  lemma WhoIsInFlight(w: World, action: Action, texts: Texts, x: Id)
    ensures var later := Act(w, action, texts);
            && (x in later.workers <==>
                  (action == BeginPublish(x) && Due(w, action, x))
                  || (x in w.workers && action !in {FinishPublish(x), FailPublish(x), Crash}
                      && !(action.ParkStale? && action.publicationId == x)))
            && (x in later.runs <==>
                  (action.CheckLaunch? && action.attemptId == x && MayLaunch(w.db, x, action.primary))
                  || (x in w.runs && action !in {EndRun(x), Crash} && !(action.FailRun? && action.attemptId == x)))
            && (x in later.launches <==>
                  (action.CheckLaunch? && action.attemptId == x && MayLaunch(w.db, x, action.primary))
                  || (x in w.launches && action !in {AbandonLaunch(x), StartSubtask(x), EndRun(x), Crash}
                      && !(action.FailRun? && action.attemptId == x)))
  {
  }

  // --------------------------------------------------------------- approvals

  /** Statuses that a publication reaches only with its request approved. */
  predicate Cleared(status: P.Status) {
    !status.AwaitingApproval? && !status.Denied? && !status.Cancelled?
  }

  predicate IsCleared(db: Database, p: Id, request: Id) {
    && p in db.publications && Cleared(db.publications[p].status)
    && db.publications[p].permissionRequestId == request
  }

  /** Action `k` approved the publication's request. */
  ghost predicate ApprovedAt(worlds: seq<World>, actions: seq<Action>, k: nat, p: Id, request: Id)
    requires k < |actions| && |worlds| == |actions| + 1
  {
    && actions[k] == Commit(Approve(p)) && p in worlds[k].db.publications
    && worlds[k].db.publications[p].status == P.AwaitingApproval
    && worlds[k].db.publications[p].permissionRequestId == request
  }

  lemma EdgeClearsByApproval(
    w: World, action: Action, p: Id, before: Option<Publication>, after: Option<Publication>)
    requires PublicationEdge(w, action, p, before, after)
    requires after.Some? && Cleared(after.value.status)
    ensures before.Some? && before.value.permissionRequestId == after.value.permissionRequestId
    ensures Cleared(before.value.status)
            || (action == Commit(Approve(p)) && before.value.status == P.AwaitingApproval)
  {
    if after == before {
    } else if AnswerEdge(w.db, action, p, before, after) {
      assert Moved(before, after, P.AwaitingApproval, P.Pending) || before.value.status in {P.Conflicted, P.Pending};
    } else if WorkEdge(w, action, p, before, after) {
      assert before.value.status in {P.Pending, P.Applying};
    } else {
      assert RowCancelled(before.value, after.value);
    }
  }

  lemma ClearedByApproval(w: World, action: Action, texts: Texts, p: Id, request: Id)
    requires IsCleared(Act(w, action, texts).db, p, request)
    ensures IsCleared(w.db, p, request)
            || (action == Commit(Approve(p)) && p in w.db.publications
                && w.db.publications[p].status == P.AwaitingApproval
                && w.db.publications[p].permissionRequestId == request)
  {
    var before, after := Lookup(w.db.publications, p), Lookup(Act(w, action, texts).db.publications, p);
    assert PublicationEdge(w, action, p, before, after) by {
      PublicationMoves(w, action, texts, p);
    }
    EdgeClearsByApproval(w, action, p, before, after);
  }

  /** Over every run: a publication on its way to main, or there, had its request
      approved, unless the run began with that. A new request after a conflict of
      bases needs a new approval. */
  lemma {:induction false} ClearedWasApproved(
    worlds: seq<World>, actions: seq<Action>, texts: Texts, n: nat, p: Id, request: Id)
    requires IsRun(worlds, actions, texts) && n <= |actions| && IsCleared(worlds[n].db, p, request)
    ensures IsCleared(worlds[0].db, p, request)
            || exists k :: 0 <= k < n && ApprovedAt(worlds, actions, k, p, request)
  {
    if n == 0 {
    } else {
      assert Moves(worlds, actions, texts, n - 1);
      ClearedByApproval(worlds[n - 1], actions[n - 1], texts, p, request);
      if IsCleared(worlds[n - 1].db, p, request) {
        ClearedWasApproved(worlds, actions, texts, n - 1, p, request);
      } else {
        assert ApprovedAt(worlds, actions, n - 1, p, request);
      }
    }
  }

  // ---------------------------------------------------------------- Subtasks

  /** What a step makes of a Subtask's row. */
  predicate StepWrites(db: Database, step: Step, s: Id, row: Subtask, after: Subtask) {
    match step
    case Land(input) =>
      if CanLand(db, input) && input.receipt.subtaskId == s && ExecutorWins(db, input)
      then after == row.(status := input.nextSubtaskStatus, error := input.subtaskError)
           && row.status == input.expectedSubtaskStatus
      else if CanLand(db, input) && input.receipt.subtaskId == s && PauseWins(db, input)
      then after == row.(status := Ready, error := None) else after == row
    case CancelTask(t, g) =>
      if CanCancelTask(db, t, g) && row.taskId == t && row.status !in {Done, Cancelled}
         && (t in db.revisions ==> row.graphRevision == db.revisions[t].revision)
      then after == row.(status := Cancelled) else after == row
    case CancelSubtasks(t, g, r, expected) =>
      if CanCancelSubtasks(db, t, g, r, expected) && s in expected
      then after == row.(status := Cancelled) else after == row
    case Deny(p, denial) =>
      if p in db.publications && db.publications[p].subtaskId == s && db.publications[p].status == P.AwaitingApproval
      then after == row.(status := Blocked, error := Some(denial)) else after == row
    case Reissue(p, _, _) =>
      if p in db.publications && db.publications[p].subtaskId == s && db.publications[p].status == P.Parked
      then after == row.(status := AwaitingIntegration, error := None) else after == row
    case RecoverSubtask(t, note) =>
      if t == s && row.status !in {Done, Cancelled}
      then after == row.(status := Ready, error := Some(note)) else after == row
    case BlockSubtask(t, note) =>
      if t == s && row.status == AwaitingDecision
      then after == row.(status := Blocked, error := Some(note)) else after == row
    case UnblockSubtask(t) =>
      if t == s && row.status == Blocked then after == row.(status := Ready, error := None) else after == row
    case _ => after == row
  }

  /** And what the writes of launches and workers make of it: a launch has it
      run, an integrated publication is done, and a stale one is ready again. */
  predicate Writes(w: World, action: Action, s: Id, row: Subtask, after: Subtask) {
    match action
    case Commit(step) => StepWrites(w.db, step, s, row, after)
    case StartSubtask(a) =>
      if a in w.launches && a in w.db.dispatch && w.db.dispatch[a].subtaskId == s
      then after == row.(status := Running) else after == row
    case FinishPublish(p) =>
      if p in w.workers && p in w.db.publications && w.db.publications[p].subtaskId == s
         && w.db.publications[p].status == P.Applying
      then after == row.(status := Done, error := None) else after == row
    case ParkStale(p, note) =>
      if p in w.workers && p in w.db.publications && w.db.publications[p].subtaskId == s
      then after == row.(status := Ready, error := Some(note)) else after == row
    case _ => after == row
  }

  /** The row of one Subtask after a write of some Subtask. */
  lemma WriteOf(db: Database, t: Id, status: SubtaskStatus, error: Option<Text>, s: Id)
    requires s in db.subtasks
    ensures Lookup(UpdateStatus(db, t, status, error).subtasks, s)
            == Some(if t == s then db.subtasks[s].(status := status, error := error) else db.subtasks[s])
  {
  }

  predicate Rewrites(step: Step) {
    step.RecoverSubtask? || step.BlockSubtask? || step.UnblockSubtask?
  }

  predicate KeepsSubtasks(step: Step) {
    step.Approve? || step.RecoverApplying? || step.SettlePublication?
  }

  lemma SettlementKeepsSubtasks(db: Database, step: Step, texts: Texts)
    requires KeepsSubtasks(step)
    ensures Apply(db, step, texts).subtasks == db.subtasks
  {
  }

  lemma AnswerWrites(db: Database, step: Step, texts: Texts, s: Id)
    requires s in db.subtasks && (step.Deny? || step.Reissue?)
    ensures var later := Apply(db, step, texts);
            s in later.subtasks && StepWrites(db, step, s, db.subtasks[s], later.subtasks[s])
  {
    match step
    case Deny(p, denial) =>
      if HasStatus(db, p, P.AwaitingApproval) {
        var written := SetPublication(db, p, P.AwaitingApproval, P.Denied);
        WriteOf(written, db.publications[p].subtaskId, Blocked, Some(denial), s);
      }
    case Reissue(p, candidate, request) =>
      if HasStatus(db, p, P.Parked) {
        WriteOf(Reissued(db, p, candidate, request), db.publications[p].subtaskId, AwaitingIntegration, None, s);
      }
  }

  lemma RewriteWrites(db: Database, step: Step, texts: Texts, s: Id)
    requires s in db.subtasks && Rewrites(step)
    ensures var later := Apply(db, step, texts);
            s in later.subtasks && StepWrites(db, step, s, db.subtasks[s], later.subtasks[s])
  {
    match step
    case RecoverSubtask(t, note) => WriteOf(db, t, Ready, Some(note), s);
    case BlockSubtask(t, note) => WriteOf(db, t, Blocked, Some(note), s);
    case UnblockSubtask(t) => WriteOf(db, t, Ready, None, s);
  }

  lemma LandingWrites(db: Database, step: Step, texts: Texts, s: Id)
    requires s in db.subtasks && step.Land?
    ensures var later := Apply(db, step, texts);
            s in later.subtasks && StepWrites(db, step, s, db.subtasks[s], later.subtasks[s])
  {
  }

  lemma CancellationWrites(db: Database, step: Step, texts: Texts, s: Id)
    requires s in db.subtasks && (step.CancelTask? || step.CancelSubtasks?)
    ensures var later := Apply(db, step, texts);
            s in later.subtasks && StepWrites(db, step, s, db.subtasks[s], later.subtasks[s])
  {
    match step
    case CancelTask(t, g) =>
      if CanCancelTask(db, t, g) {
        TaskCancellationWrites(db, t, g);
      }
    case CancelSubtasks(t, g, r, expected) => SubtaskCancellationWrites(db, t, g, r, expected);
  }

  lemma SubtaskStepWrites(db: Database, step: Step, texts: Texts, s: Id)
    requires s in db.subtasks
    ensures var later := Apply(db, step, texts);
            s in later.subtasks && StepWrites(db, step, s, db.subtasks[s], later.subtasks[s])
  {
    if step.Land? {
      LandingWrites(db, step, texts, s);
    } else if step.Deny? || step.Reissue? {
      AnswerWrites(db, step, texts, s);
    } else if step.CancelTask? || step.CancelSubtasks? {
      CancellationWrites(db, step, texts, s);
    } else if Rewrites(step) {
      RewriteWrites(db, step, texts, s);
    } else if KeepsSubtasks(step) {
      SettlementKeepsSubtasks(db, step, texts);
    } else {
      ElsewhereKeepsRows(db, step, texts);
    }
  }

  lemma LaunchWrites(w: World, a: Id, texts: Texts, s: Id)
    requires s in w.db.subtasks
    ensures var later := Act(w, StartSubtask(a), texts).db;
            s in later.subtasks && Writes(w, StartSubtask(a), s, w.db.subtasks[s], later.subtasks[s])
  {
    if a in w.db.dispatch && w.db.dispatch[a].subtaskId in w.db.subtasks {
      var t := w.db.dispatch[a].subtaskId;
      WriteOf(w.db, t, Running, w.db.subtasks[t].error, s);
    }
  }

  lemma FinishWrites(w: World, p: Id, texts: Texts, s: Id)
    requires s in w.db.subtasks
    ensures var later := Act(w, FinishPublish(p), texts).db;
            s in later.subtasks && Writes(w, FinishPublish(p), s, w.db.subtasks[s], later.subtasks[s])
  {
    if HasStatus(w.db, p, P.Applying) {
      var written := SetPublication(w.db, p, P.Applying, P.Integrated);
      WriteOf(written, w.db.publications[p].subtaskId, Done, None, s);
    }
  }

  lemma ParkWrites(w: World, p: Id, note: Text, texts: Texts, s: Id)
    requires s in w.db.subtasks
    ensures var later := Act(w, ParkStale(p, note), texts).db;
            s in later.subtasks && Writes(w, ParkStale(p, note), s, w.db.subtasks[s], later.subtasks[s])
  {
    if p in w.db.publications {
      var written := SetPublication(w.db, p, P.Applying, P.Parked);
      WriteOf(written, w.db.publications[p].subtaskId, Ready, Some(note), s);
    }
  }

  lemma OtherActionsKeepSubtasks(w: World, action: Action, texts: Texts)
    requires !action.Commit? && !action.StartSubtask? && !action.FinishPublish? && !action.ParkStale?
    ensures Act(w, action, texts).db.subtasks == w.db.subtasks
  {
  }

  /** Every write of a Subtask's row, over every action. */
  lemma SubtaskWrites(w: World, action: Action, texts: Texts, s: Id)
    requires s in w.db.subtasks
    ensures var later := Act(w, action, texts).db;
            s in later.subtasks && Writes(w, action, s, w.db.subtasks[s], later.subtasks[s])
  {
    match action
    case Commit(step) => SubtaskStepWrites(w.db, step, texts, s);
    case StartSubtask(a) => LaunchWrites(w, a, texts, s);
    case FinishPublish(p) => FinishWrites(w, p, texts, s);
    case ParkStale(p, note) => ParkWrites(w, p, note, texts, s);
    case _ => OtherActionsKeepSubtasks(w, action, texts);
  }

  /** Action `k` finished a publication of the Subtask, whose request had been
      approved before, or was so when the run began. */
  ghost predicate DeliveredAt(worlds: seq<World>, actions: seq<Action>, k: nat, s: Id)
    requires k < |actions| && |worlds| == |actions| + 1
  {
    exists p :: p in worlds[k].db.publications && actions[k] == FinishPublish(p)
      && worlds[k].db.publications[p].subtaskId == s && worlds[k].db.publications[p].status == P.Applying
      && var request := worlds[k].db.publications[p].permissionRequestId;
         IsCleared(worlds[0].db, p, request) || exists j :: 0 <= j < k && ApprovedAt(worlds, actions, j, p, request)
  }

  lemma DoneByPublication(w: World, action: Action, s: Id, row: Subtask, after: Subtask)
    requires OwnAction(w, action) && Writes(w, action, s, row, after)
    requires row.status != Done && after.status == Done
    ensures action.FinishPublish? && action.publicationId in w.db.publications
    ensures w.db.publications[action.publicationId].subtaskId == s
    ensures w.db.publications[action.publicationId].status == P.Applying
  {
  }

  /** Over every run: a Subtask is done only if it was so at the start, or a
      worker finished a publication of it that had been approved. */
  lemma {:induction false} DoneWasApproved(worlds: seq<World>, actions: seq<Action>, texts: Texts, n: nat, s: Id)
    requires IsRun(worlds, actions, texts) && n <= |actions| && s in worlds[0].db.subtasks
    ensures s in worlds[n].db.subtasks
    ensures worlds[n].db.subtasks[s].status == Done ==>
              worlds[0].db.subtasks[s].status == Done || exists k :: 0 <= k < n && DeliveredAt(worlds, actions, k, s)
  {
    if n == 0 {
    } else {
      var w, action := worlds[n - 1], actions[n - 1];
      assert Moves(worlds, actions, texts, n - 1);
      DoneWasApproved(worlds, actions, texts, n - 1, s);
      SubtaskWrites(w, action, texts, s);
      if worlds[n].db.subtasks[s].status == Done && w.db.subtasks[s].status != Done {
        DoneByPublication(w, action, s, w.db.subtasks[s], worlds[n].db.subtasks[s]);
        var p := action.publicationId;
        ClearedWasApproved(worlds, actions, texts, n - 1, p, w.db.publications[p].permissionRequestId);
        assert DeliveredAt(worlds, actions, n - 1, s);
      }
    }
  }

  // ------------------------------------------------------------------- items

  /** What the end of an attempt makes of its item. */
  predicate ItemEnded(before: Dispatch, after: Dispatch, summary: Option<Text>) {
    && after.(status := before.status, errorSummary := before.errorSummary) == before
    && (before.status == Cancelling ==>
          after.status == DispatchCancelled
          && after.errorSummary == if summary.Some? then summary else before.errorSummary)
    && (before.status in {Launching, Launched, Uncertain} ==>
          after.status == Terminal && after.errorSummary == summary)
    && (before.status in {PendingLaunch, Terminal, DispatchCancelled} ==> after == before)
  }

  predicate ItemMoved(before: Dispatch, after: Dispatch, from: DispatchStatus, to: DispatchStatus) {
    after == if before.status == from then before.(status := to) else before
  }

  /** What an action makes of the item of attempt `a`. */
  predicate ItemWrites(w: World, action: Action, texts: Texts, a: Id, before: Dispatch, after: Dispatch) {
    match action
    case Commit(Land(input)) =>
      if CanLand(w.db, input) && input.receipt.attemptId == a
      then ItemEnded(before, after,
                     if PauseWins(w.db, input) then Some(texts.pauseSummary) else input.receipt.errorDetail)
      else after == before
    case Commit(CancelTask(_, _)) =>
      after == before || (Cancels(w.db, action) && ItemCancelled(before, after))
    case Commit(CancelSubtasks(_, _, _, _)) =>
      after == before || (Cancels(w.db, action) && ItemCancelled(before, after))
    case Commit(Claim(b)) =>
      if b == a && NotCancelled(w.db, before.taskId, before.subtaskId)
      then ItemMoved(before, after, PendingLaunch, Launching) else after == before
    case Commit(MarkRunning(b)) =>
      if b == a then ItemMoved(before, after, Launching, Launched) else after == before
    case Commit(MarkCancelled(b)) =>
      if b == a then ItemMoved(before, after, Cancelling, DispatchCancelled) else after == before
    case Commit(Unclaim(b)) =>
      if b == a then ItemMoved(before, after, Launching, PendingLaunch) else after == before
    case EndRun(b) => if b == a then ItemEnded(before, after, None) else after == before
    case FailRun(b, summary) =>
      if b == a && before.status in {PendingLaunch, Launching, Launched}
      then after == before.(status := Uncertain, errorSummary := Some(summary)) else after == before
    case _ => after == before
  }

  lemma StatusWritten(db: Database, b: Id, from: DispatchStatus, to: DispatchStatus, a: Id)
    requires a in db.dispatch
    ensures a in SetDispatch(db, b, {from}, to).dispatch
    ensures var after := SetDispatch(db, b, {from}, to).dispatch[a];
            if b == a then ItemMoved(db.dispatch[a], after, from, to) else after == db.dispatch[a]
  {
  }

  predicate MovesItem(step: Step) {
    step.Claim? || step.MarkRunning? || step.MarkCancelled? || step.Unclaim?
  }

  lemma MoveWritesItem(w: World, step: Step, texts: Texts, a: Id)
    requires a in w.db.dispatch && MovesItem(step)
    ensures var later := Apply(w.db, step, texts);
            a in later.dispatch && ItemWrites(w, Commit(step), texts, a, w.db.dispatch[a], later.dispatch[a])
  {
    match step
    case Claim(b) => StatusWritten(w.db, b, PendingLaunch, Launching, a);
    case MarkRunning(b) => StatusWritten(w.db, b, Launching, Launched, a);
    case MarkCancelled(b) => StatusWritten(w.db, b, Cancelling, DispatchCancelled, a);
    case Unclaim(b) => StatusWritten(w.db, b, Launching, PendingLaunch, a);
  }

  lemma CancellationWritesItem(w: World, step: Step, texts: Texts, a: Id)
    requires a in w.db.dispatch && (step.CancelTask? || step.CancelSubtasks?)
    ensures var later := Apply(w.db, step, texts);
            a in later.dispatch && ItemWrites(w, Commit(step), texts, a, w.db.dispatch[a], later.dispatch[a])
  {
    match step
    case CancelTask(t, g) =>
      if CanCancelTask(w.db, t, g) {
        TaskCancellationWrites(w.db, t, g);
      }
    case CancelSubtasks(t, g, r, expected) => SubtaskCancellationWrites(w.db, t, g, r, expected);
  }

  lemma LandingWritesItem(w: World, input: Landing, texts: Texts, a: Id)
    requires a in w.db.dispatch
    ensures var later := Apply(w.db, Land(input), texts);
            a in later.dispatch && ItemWrites(w, Commit(Land(input)), texts, a, w.db.dispatch[a], later.dispatch[a])
  {
  }

  lemma EndOfItem(item: Dispatch, summary: Option<Text>)
    ensures ItemEnded(item, AfterMarkTerminal(item, summary), summary)
  {
  }

  lemma EndWritesItem(w: World, b: Id, texts: Texts, a: Id)
    requires a in w.db.dispatch
    ensures var later := Act(w, EndRun(b), texts).db;
            a in later.dispatch && ItemWrites(w, EndRun(b), texts, a, w.db.dispatch[a], later.dispatch[a])
  {
    EndOfItem(w.db.dispatch[a], None);
    assert Lookup(RunEnded(w.db, b).dispatch, a)
           == Some(if a == b then AfterMarkTerminal(w.db.dispatch[a], None) else w.db.dispatch[a]);
  }

  lemma FailureWritesItem(w: World, b: Id, summary: Text, texts: Texts, a: Id)
    requires a in w.db.dispatch
    ensures var later := Act(w, FailRun(b, summary), texts).db;
            a in later.dispatch && ItemWrites(w, FailRun(b, summary), texts, a, w.db.dispatch[a], later.dispatch[a])
  {
    assert Lookup(RunFailed(w.db, b, summary).dispatch, a)
           == Some(if a == b then AfterMarkUncertain(w.db.dispatch[a], summary) else w.db.dispatch[a]);
  }

  lemma OtherStepsKeepItem(w: World, step: Step, texts: Texts, a: Id)
    requires a in w.db.dispatch
    requires !MovesItem(step) && !step.Land? && !step.CancelTask? && !step.CancelSubtasks?
    ensures Lookup(Apply(w.db, step, texts).dispatch, a) == Some(w.db.dispatch[a])
  {
  }

  lemma OtherActionsKeepItems(w: World, action: Action, texts: Texts)
    requires !action.Commit? && !action.EndRun? && !action.FailRun?
    ensures Act(w, action, texts).db.dispatch == w.db.dispatch
  {
    if action.FinishPublish? {
      var p := action.publicationId;
      assert SetPublication(w.db, p, P.Applying, P.Integrated).dispatch == w.db.dispatch;
    }
  }

  /** Every write of an attempt's item, over every action. */
  lemma ItemIsWritten(w: World, action: Action, texts: Texts, a: Id)
    requires a in w.db.dispatch
    ensures var later := Act(w, action, texts).db;
            a in later.dispatch && ItemWrites(w, action, texts, a, w.db.dispatch[a], later.dispatch[a])
  {
    if action.EndRun? {
      EndWritesItem(w, action.attemptId, texts, a);
    } else if action.FailRun? {
      FailureWritesItem(w, action.attemptId, action.summary, texts, a);
    } else if !action.Commit? {
      OtherActionsKeepItems(w, action, texts);
    } else if MovesItem(action.step) {
      MoveWritesItem(w, action.step, texts, a);
    } else if action.step.Land? {
      LandingWritesItem(w, action.step.input, texts, a);
    } else if action.step.CancelTask? || action.step.CancelSubtasks? {
      CancellationWritesItem(w, action.step, texts, a);
    } else {
      OtherStepsKeepItem(w, action.step, texts, a);
    }
  }

  lemma StepsAddItem(db: Database, step: Step, texts: Texts, a: Id)
    requires a !in db.dispatch
    ensures Lookup(Apply(db, step, texts).dispatch, a)
            == if step.AddDispatch? && step.attemptId == a then Some(step.item.(status := PendingLaunch)) else None
  {
    match step
    case CancelTask(t, g) =>
      if CanCancelTask(db, t, g) {
        TaskCancellationWrites(db, t, g);
      }
    case CancelSubtasks(t, g, r, expected) => SubtaskCancellationWrites(db, t, g, r, expected);
    case _ =>
  }

  /** A new item waits for its launch, whatever status it came with. */
  lemma NewItemsWait(w: World, action: Action, texts: Texts, a: Id)
    requires a !in w.db.dispatch
    ensures Lookup(Act(w, action, texts).db.dispatch, a)
            == match action
               case Commit(AddDispatch(b, item)) => if b == a then Some(item.(status := PendingLaunch)) else None
               case _ => None
  {
    if action.Commit? {
      StepsAddItem(w.db, action.step, texts, a);
    } else if !action.EndRun? && !action.FailRun? {
      OtherActionsKeepItems(w, action, texts);
    }
  }

  // ------------------------------------------------------------------- Tasks

  /** From where a Task comes to a status. */
  predicate ComesFrom(target: TaskStatus, before: TaskStatus) {
    match target
    case TaskCreated => false
    case TaskReady => before in {TaskCreated, TaskParked, TaskBlocked}
    case TaskRunning => before == TaskReady
    case TaskParked => before in {TaskCreated, TaskReady, TaskRunning, TaskBlocked}
    case TaskBlocked => before == TaskRunning
    case TaskDone => before in {TaskRunning, TaskBlocked}
    case TaskArchived => before == TaskDone
    case TaskCancelled => before !in {TaskDone, TaskArchived, TaskCancelled}
  }

  lemma TaskMoves(db: Database, t: Id, target: TaskStatus, u: Id)
    requires u in db.tasks
    ensures Lookup(TaskMoved(db, t, target).tasks, u)
            == Some(if t == u && ComesFrom(target, db.tasks[u]) then target else db.tasks[u])
  {
  }

  lemma OtherStepsKeepTasks(db: Database, step: Step, texts: Texts)
    requires !step.MoveTask? && !step.CancelTask?
    ensures Apply(db, step, texts).tasks == db.tasks
  {
  }

  lemma OtherActionsKeepTasks(w: World, action: Action, texts: Texts)
    requires !action.Commit?
    ensures Act(w, action, texts).db.tasks == w.db.tasks
  {
    if action.FinishPublish? {
      var p := action.publicationId;
      assert SetPublication(w.db, p, P.Applying, P.Integrated).tasks == w.db.tasks;
    }
  }

  /** A Task moves as it is told to, if its status allows, and by a cancellation. */
  lemma TaskIsWritten(w: World, action: Action, texts: Texts, t: Id)
    requires t in w.db.tasks
    ensures Lookup(Act(w, action, texts).db.tasks, t)
            == Some(match action
                    case Commit(MoveTask(u, target)) =>
                      if u == t && ComesFrom(target, w.db.tasks[t]) then target else w.db.tasks[t]
                    case Commit(CancelTask(u, g)) =>
                      if u == t && CanCancelTask(w.db, t, g) then TaskCancelled else w.db.tasks[t]
                    case _ => w.db.tasks[t])
  {
    match action
    case Commit(MoveTask(u, target)) => TaskMoves(w.db, u, target, t);
    case Commit(CancelTask(u, g)) =>
      if CanCancelTask(w.db, u, g) {
        TaskCancellationWrites(w.db, u, g);
      }
    case Commit(step) => OtherStepsKeepTasks(w.db, step, texts);
    case _ => OtherActionsKeepTasks(w, action, texts);
  }

  /** Over every run a cancelled Task stays cancelled and an archived one archived. */
  lemma {:induction false} EndedTasksStay(worlds: seq<World>, actions: seq<Action>, texts: Texts, n: nat, t: Id)
    requires IsRun(worlds, actions, texts) && n <= |actions|
    requires t in worlds[0].db.tasks && worlds[0].db.tasks[t] in {TaskCancelled, TaskArchived}
    ensures Lookup(worlds[n].db.tasks, t) == Some(worlds[0].db.tasks[t])
  {
    if n == 0 {
    } else {
      assert Moves(worlds, actions, texts, n - 1);
      EndedTasksStay(worlds, actions, texts, n - 1, t);
      TaskIsWritten(worlds[n - 1], actions[n - 1], texts, t);
    }
  }
}
