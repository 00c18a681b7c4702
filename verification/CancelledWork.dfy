/**
 What a cancelled Subtask can still become: src/execution/attempt-terminal-service.ts
 and src/execution/task-cancellation-coordinator.ts, when launches and publication
 workers write its row after the cancellation.
 */
module CancelledWork {
  import opened Prelude
  import opened AttemptLanding
  import P = PublicationStatus

  predicate Undelivered(status: SubtaskStatus) {
    status != Done && status != AwaitingIntegration
  }

  /** Nothing of the Subtask is delivered or about to be, whatever a write in
      flight has done to its row. */
  ghost predicate Quiet(db: Database, s: Id) {
    && s in db.subtasks && Undelivered(db.subtasks[s].status)
    && (forall p :: p in db.publications && db.publications[p].subtaskId == s ==> Inert(db.publications[p].status))
  }

  ghost predicate StaysQuiet(db: Database, later: Database, s: Id) {
    && Quiet(later, s) && SamePublications(db, later, s)
    && s in db.subtasks && later.subtasks[s].taskId == db.subtasks[s].taskId
  }

  /** The one way to deliver: the executor's own run lands, and wins. */
  predicate Delivers(db: Database, action: Action, s: Id) {
    && action.Commit? && action.step.Land? && CanLand(db, action.step.input)
    && action.step.input.receipt.subtaskId == s && action.step.input.event.completed
    && ExecutorWins(db, action.step.input)
  }

  lemma SameRowsStayQuiet(db: Database, later: Database, s: Id)
    requires Quiet(db, s) && later.subtasks == db.subtasks && later.publications == db.publications
    ensures StaysQuiet(db, later, s)
  {
  }

  lemma LandingStaysQuiet(db: Database, input: Landing, texts: Texts, s: Id)
    requires Quiet(db, s) && CanLand(db, input) && OwnLanding(db, input)
    requires !(input.receipt.subtaskId == s && input.event.completed && ExecutorWins(db, input))
    ensures StaysQuiet(db, AfterLanding(db, input, texts), s)
  {
    var after := AfterLanding(db, input, texts);
    if input.receipt.subtaskId == s {
      assert after.publications == db.publications;
    }
  }

  lemma CancellationStaysQuiet(db: Database, ids: set<Id>, scope: Scope, s: Id)
    requires Quiet(db, s)
    ensures StaysQuiet(db, RequestCancellation(CancelRows(db, ids), scope), s)
  {
  }

  lemma OtherRowStaysQuiet(db: Database, p: Id, row: Publication, s: Id)
    requires Quiet(db, s) && p in db.publications && row.subtaskId == db.publications[p].subtaskId
    requires row.subtaskId == s ==> Inert(row.status) && row.candidateCommit == db.publications[p].candidateCommit
    ensures StaysQuiet(db, db.(publications := db.publications[p := row]), s)
  {
  }

  lemma PublicationWriteStaysQuiet(db: Database, p: Id, from: P.Status, to: P.Status, s: Id)
    requires Quiet(db, s) && (Inert(from) ==> Inert(to))
    ensures StaysQuiet(db, SetPublication(db, p, from, to), s)
  {
    if HasStatus(db, p, from) {
      OtherRowStaysQuiet(db, p, db.publications[p].(status := to), s);
    } else {
      SameRowsStayQuiet(db, db, s);
    }
  }

  lemma SubtaskWriteStaysQuiet(db: Database, t: Id, status: SubtaskStatus, error: Option<Text>, s: Id)
    requires Quiet(db, s) && (t != s || Undelivered(status))
    ensures StaysQuiet(db, UpdateStatus(db, t, status, error), s)
  {
  }

  lemma StaysQuietTransitively(a: Database, b: Database, c: Database, s: Id)
    requires StaysQuiet(a, b, s) && StaysQuiet(b, c, s)
    ensures StaysQuiet(a, c, s)
  {
    SamePublicationsTransitively(a, b, c, s);
  }

  /** A publication write and the Subtask write that follows it. */
  lemma BothWritesStayQuiet(db: Database, written: Database, p: Id, from: P.Status,
                            status: SubtaskStatus, error: Option<Text>, s: Id)
    requires Quiet(db, s) && !Inert(from) && StaysQuiet(db, written, s)
    ensures StaysQuiet(db, WithSubtask(db, written, p, from, status, error), s)
  {
    SameRowsStayQuiet(db, db, s);
    if HasStatus(db, p, from) {
      var t := db.publications[p].subtaskId;
      SubtaskWriteStaysQuiet(written, t, status, error, s);
      StaysQuietTransitively(db, written, UpdateStatus(written, t, status, error), s);
    }
  }

  lemma DenialStaysQuiet(db: Database, p: Id, denial: Text, texts: Texts, s: Id)
    requires Quiet(db, s)
    ensures StaysQuiet(db, Apply(db, Deny(p, denial), texts), s)
  {
    PublicationWriteStaysQuiet(db, p, P.AwaitingApproval, P.Denied, s);
    BothWritesStayQuiet(db, SetPublication(db, p, P.AwaitingApproval, P.Denied), p, P.AwaitingApproval,
                        Blocked, Some(denial), s);
  }

  lemma ReissueStaysQuiet(db: Database, p: Id, candidate: Id, request: Id, texts: Texts, s: Id)
    requires Quiet(db, s)
    ensures StaysQuiet(db, Apply(db, Reissue(p, candidate, request), texts), s)
  {
    if HasStatus(db, p, P.Parked) {
      OtherRowStaysQuiet(db, p, db.publications[p].(
        status := P.AwaitingApproval, candidateCommit := candidate, permissionRequestId := request), s);
    } else {
      SameRowsStayQuiet(db, db, s);
    }
    BothWritesStayQuiet(db, Reissued(db, p, candidate, request), p, P.Parked, AwaitingIntegration, None, s);
  }

  lemma AnswerStepStaysQuiet(db: Database, step: Step, texts: Texts, s: Id)
    requires step.Approve? || step.Deny? || step.Reissue? || step.RecoverApplying? || step.SettlePublication?
    requires Quiet(db, s)
    ensures StaysQuiet(db, Apply(db, step, texts), s)
  {
    match step
    case Approve(p) => PublicationWriteStaysQuiet(db, p, P.AwaitingApproval, P.Pending, s);
    case Deny(p, denial) => DenialStaysQuiet(db, p, denial, texts, s);
    case Reissue(p, candidate, request) => ReissueStaysQuiet(db, p, candidate, request, texts, s);
    case RecoverApplying(p) =>
      PublicationWriteStaysQuiet(db, p, P.Applying, P.Pending, s);
      SameRowsStayQuiet(db, db, s);
    case SettlePublication(p) => PublicationWriteStaysQuiet(db, p, P.Cancelling, P.Cancelled, s);
  }

  lemma SubtaskStepStaysQuiet(db: Database, step: Step, texts: Texts, s: Id)
    requires step.RecoverSubtask? || step.BlockSubtask? || step.UnblockSubtask?
    requires Quiet(db, s)
    ensures StaysQuiet(db, Apply(db, step, texts), s)
  {
    SameRowsStayQuiet(db, db, s);
    match step
    case RecoverSubtask(t, note) => SubtaskWriteStaysQuiet(db, t, Ready, Some(note), s);
    case BlockSubtask(t, note) => SubtaskWriteStaysQuiet(db, t, Blocked, Some(note), s);
    case UnblockSubtask(t) => SubtaskWriteStaysQuiet(db, t, Ready, None, s);
  }

  lemma CancelStaysQuiet(db: Database, step: Step, texts: Texts, s: Id)
    requires Quiet(db, s) && (step.CancelTask? || step.CancelSubtasks?)
    ensures StaysQuiet(db, Apply(db, step, texts), s)
  {
    SameRowsStayQuiet(db, db, s);
    match step
    case CancelTask(t, g) =>
      var marked := db.(tasks := db.tasks[t := TaskCancelled]);
      CancellationStaysQuiet(marked, TaskClosure(db, t), Scope(t, ActiveGeneration(db, t), None), s);
      SameRowsStayQuiet(db, marked, s);
      StaysQuietTransitively(db, marked, AfterCancelTask(db, t), s);
    case CancelSubtasks(t, g, r, expected) =>
      CancellationStaysQuiet(db, expected.Keys, Scope(t, Some(g), Some(expected.Keys)), s);
  }

  lemma StepStaysQuiet(db: Database, step: Step, texts: Texts, s: Id)
    requires Quiet(db, s) && (step.Land? ==> OwnLanding(db, step.input)) && !Delivers(db, Commit(step), s)
    ensures StaysQuiet(db, Apply(db, step, texts), s)
  {
    if step.Land? {
      SameRowsStayQuiet(db, db, s);
      if CanLand(db, step.input) {
        LandingStaysQuiet(db, step.input, texts, s);
      }
    } else if step.CancelTask? || step.CancelSubtasks? {
      CancelStaysQuiet(db, step, texts, s);
    } else if step.RecoverSubtask? || step.BlockSubtask? || step.UnblockSubtask? {
      SubtaskStepStaysQuiet(db, step, texts, s);
    } else if Elsewhere(step) {
      ElsewhereKeepsRows(db, step, texts);
      SameRowsStayQuiet(db, Apply(db, step, texts), s);
    } else {
      AnswerStepStaysQuiet(db, step, texts, s);
    }
  }

  lemma ParkStaysQuiet(db: Database, p: Id, note: Text, s: Id)
    requires Quiet(db, s)
    ensures StaysQuiet(db, Parked(db, p, note), s)
  {
    SameRowsStayQuiet(db, db, s);
    if p in db.publications {
      var written := SetPublication(db, p, P.Applying, P.Parked);
      PublicationWriteStaysQuiet(db, p, P.Applying, P.Parked, s);
      SubtaskWriteStaysQuiet(written, db.publications[p].subtaskId, Ready, Some(note), s);
      StaysQuietTransitively(db, written, Parked(db, p, note), s);
    }
  }

  lemma ActionStaysQuiet(w: World, action: Action, texts: Texts, s: Id)
    requires OwnAction(w, action) && Quiet(w.db, s) && !Delivers(w.db, action, s)
    ensures StaysQuiet(w.db, Act(w, action, texts).db, s)
  {
    SameRowsStayQuiet(w.db, w.db, s);
    match action
    case Commit(step) => StepStaysQuiet(w.db, step, texts, s);
    case StartSubtask(a) =>
      if a in w.db.dispatch && w.db.dispatch[a].subtaskId in w.db.subtasks {
        var t := w.db.dispatch[a].subtaskId;
        SubtaskWriteStaysQuiet(w.db, t, Running, w.db.subtasks[t].error, s);
      }
    case EndRun(a) => SameRowsStayQuiet(w.db, RunEnded(w.db, a), s);
    case FailRun(a, summary) => SameRowsStayQuiet(w.db, RunFailed(w.db, a, summary), s);
    case BeginPublish(p) => PublicationWriteStaysQuiet(w.db, p, P.Pending, P.Applying, s);
    case FinishPublish(p) =>
      PublicationWriteStaysQuiet(w.db, p, P.Applying, P.Integrated, s);
      BothWritesStayQuiet(w.db, SetPublication(w.db, p, P.Applying, P.Integrated), p, P.Applying, Done, None, s);
    case FailPublish(p) => PublicationWriteStaysQuiet(w.db, p, P.Applying, P.Pending, s);
    case ParkStale(p, note) => ParkStaysQuiet(w.db, p, note, s);
    case _ =>
  }

  // -------------------------------------------------- why nothing delivers

  /** The Subtask's Task has ended, for good. */
  predicate TaskOver(db: Database, s: Id) {
    s in db.subtasks
    && (db.subtasks[s].taskId in db.tasks ==> !Cancellable(db.tasks[db.subtasks[s].taskId]))
  }

  /** An attempt that cannot deliver any more: cancelled, or landed, or settled
      with its run at an end. */
  predicate Harmless(w: World, a: Id) {
    CancelledAttempt(w.db, a) || a in w.db.receipts
    || (a in w.db.dispatch && Settled(w.db.dispatch[a]) && a !in w.runs)
  }

  ghost predicate AttemptsHarmless(w: World, s: Id) {
    forall a :: a in w.db.dispatch && w.db.dispatch[a].subtaskId == s ==> Harmless(w, a)
  }

  /** Cancelled with everything that could still deliver it. */
  ghost predicate Silenced(w: World, s: Id) {
    Quiet(w.db, s) && (TaskOver(w.db, s) || AttemptsHarmless(w, s))
  }

  /** No further attempt of the Subtask is dispatched. */
  predicate NoNewAttempt(action: Action, s: Id) {
    action.Commit? && action.step.AddDispatch? ==> action.step.item.subtaskId != s
  }

  lemma HarmlessLoses(w: World, input: Landing)
    requires CanLand(w.db, input) && Harmless(w, input.receipt.attemptId) && input.receipt.attemptId in w.runs
    ensures !ExecutorWins(w.db, input)
  {
  }

  lemma SilencedDeliversNothing(w: World, action: Action, s: Id)
    requires Silenced(w, s) && OwnAction(w, action)
    ensures !Delivers(w.db, action, s)
  {
    if Delivers(w.db, action, s) && !TaskOver(w.db, s) {
      HarmlessLoses(w, action.step.input);
    }
  }

  lemma ActionKeepsTasks(w: World, action: Action, texts: Texts)
    requires !action.Commit?
    ensures Act(w, action, texts).db.tasks == w.db.tasks
  {
    match action
    case FinishPublish(p) =>
      WithSubtaskKeeps(w.db, SetPublication(w.db, p, P.Applying, P.Integrated), p, P.Applying, Done, None);
    case _ =>
  }

  /** A Task that has ended stays at its end. */
  lemma TasksStayOver(w: World, action: Action, texts: Texts, t: Id)
    requires t in w.db.tasks ==> !Cancellable(w.db.tasks[t])
    ensures var later := Act(w, action, texts).db;
            t in later.tasks ==> !Cancellable(later.tasks[t])
  {
    if !action.Commit? {
      ActionKeepsTasks(w, action, texts);
    } else if !action.step.MoveTask? && !action.step.CancelTask? {
      StepKeepsTasks(w.db, action.step, texts);
    }
  }

  predicate RowStep(step: Step) {
    !step.Land? && !step.CancelTask? && !step.CancelSubtasks? && !Elsewhere(step)
  }

  lemma WithSubtaskKeeps(db: Database, written: Database, p: Id, from: P.Status,
                         status: SubtaskStatus, error: Option<Text>)
    requires written.tasks == db.tasks && written.dispatch == db.dispatch
    ensures var later := WithSubtask(db, written, p, from, status, error);
            later.tasks == db.tasks && later.dispatch == db.dispatch
  {
  }

  lemma RowStepKeeps(db: Database, step: Step, texts: Texts)
    requires RowStep(step)
    ensures Apply(db, step, texts).tasks == db.tasks && Apply(db, step, texts).dispatch == db.dispatch
  {
    match step
    case Deny(p, denial) =>
      WithSubtaskKeeps(db, SetPublication(db, p, P.AwaitingApproval, P.Denied), p, P.AwaitingApproval,
                       Blocked, Some(denial));
    case Reissue(p, candidate, request) =>
      WithSubtaskKeeps(db, Reissued(db, p, candidate, request), p, P.Parked, AwaitingIntegration, None);
    case _ =>
  }

  lemma StepKeepsTasks(db: Database, step: Step, texts: Texts)
    requires !step.MoveTask? && !step.CancelTask?
    ensures Apply(db, step, texts).tasks == db.tasks
  {
    if RowStep(step) {
      RowStepKeeps(db, step, texts);
    }
  }

  /** Only a dispatch adds an item. */
  lemma ItemsAreDispatched(w: World, action: Action, texts: Texts, a: Id, s: Id)
    requires NoNewAttempt(action, s) && a in Act(w, action, texts).db.dispatch && a !in w.db.dispatch
    ensures Act(w, action, texts).db.dispatch[a].subtaskId != s
  {
    if action.Commit? && !action.step.AddDispatch? {
      StepAddsItems(w.db, action.step, texts);
    }
  }

  lemma StepAddsItems(db: Database, step: Step, texts: Texts)
    requires !step.AddDispatch?
    ensures Apply(db, step, texts).dispatch.Keys == db.dispatch.Keys
  {
    if RowStep(step) {
      RowStepKeeps(db, step, texts);
    }
  }

  lemma StaysHarmless(w: World, action: Action, texts: Texts, a: Id)
    requires a in w.db.dispatch && Harmless(w, a)
    ensures Harmless(Act(w, action, texts), a)
  {
    ActionEvolves(w, action, texts);
    ActionExtends(w, action, texts);
  }

  lemma AttemptsStayHarmless(w: World, action: Action, texts: Texts, s: Id)
    requires AttemptsHarmless(w, s) && NoNewAttempt(action, s)
    ensures AttemptsHarmless(Act(w, action, texts), s)
  {
    var later := Act(w, action, texts);
    ActionEvolves(w, action, texts);
    forall a | a in later.db.dispatch && later.db.dispatch[a].subtaskId == s
      ensures Harmless(later, a)
    {
      if a in w.db.dispatch {
        StaysHarmless(w, action, texts, a);
      } else {
        ItemsAreDispatched(w, action, texts, a, s);
      }
    }
  }

  lemma MoveStaysSilenced(worlds: seq<World>, actions: seq<Action>, texts: Texts, k: nat, s: Id)
    requires IsRun(worlds, actions, texts) && k < |actions| && Silenced(worlds[k], s)
    requires TaskOver(worlds[k].db, s) || NoNewAttempt(actions[k], s)
    ensures Silenced(worlds[k + 1], s) && StaysQuiet(worlds[k].db, worlds[k + 1].db, s)
    ensures TaskOver(worlds[k].db, s) ==> TaskOver(worlds[k + 1].db, s)
  {
    var w, action := worlds[k], actions[k];
    assert Moves(worlds, actions, texts, k);
    SilencedDeliversNothing(w, action, s);
    ActionStaysQuiet(w, action, texts, s);
    if TaskOver(w.db, s) {
      TasksStayOver(w, action, texts, w.db.subtasks[s].taskId);
    } else {
      AttemptsStayHarmless(w, action, texts, s);
    }
  }

  /** A Subtask that is silenced, and gets no new attempt while its Task lives,
      is never done and never awaits integration again, and no publication of
      it is created, repaired, approved or reopened: whatever writes of its row
      were in flight, and in every interleaving. */
  lemma {:induction false} CancelledSubtaskIsNeverDelivered(
    worlds: seq<World>, actions: seq<Action>, texts: Texts, n: nat, s: Id)
    requires IsRun(worlds, actions, texts) && n <= |actions| && Silenced(worlds[0], s)
    requires TaskOver(worlds[0].db, s) || forall k :: 0 <= k < |actions| ==> NoNewAttempt(actions[k], s)
    ensures Silenced(worlds[n], s) && StaysQuiet(worlds[0].db, worlds[n].db, s)
    ensures TaskOver(worlds[0].db, s) ==> TaskOver(worlds[n].db, s)
    decreases n
  {
    if n == 0 {
      SameRowsStayQuiet(worlds[0].db, worlds[0].db, s);
    } else {
      CancelledSubtaskIsNeverDelivered(worlds, actions, texts, n - 1, s);
      MoveStaysSilenced(worlds, actions, texts, n - 1, s);
      StaysQuietTransitively(worlds[0].db, worlds[n - 1].db, worlds[n].db, s);
    }
  }

  // --------------------------------------------------- what a cancellation does

  /** Cancelling a Task silences every unfinished Subtask of the active graph. */
  lemma TaskCancellationSilences(w: World, texts: Texts, taskId: Id, generationId: Option<Id>, s: Id)
    requires Coherent(w.db) && CanCancelTask(w.db, taskId, generationId)
    requires s in ActiveSubtasks(w.db, taskId) && w.db.subtasks[s].status != Done
    ensures var later := Act(w, Commit(CancelTask(taskId, generationId)), texts);
            Silenced(later, s) && TaskOver(later.db, s)
  {
    TaskCancellationFences(w.db, taskId, generationId);
  }

  /** Attempts were dispatched for the Subtask's Task and generation. */
  ghost predicate AttemptsBelong(db: Database, s: Id)
    requires s in db.subtasks
  {
    forall a :: a in db.dispatch && db.dispatch[a].subtaskId == s ==>
      && db.dispatch[a].taskId == db.subtasks[s].taskId
      && db.dispatch[a].generationId == db.subtasks[s].generationId
  }

  /** A run that is under way has its item, which is not terminal before the
      run's landing. */
  ghost predicate RunsKnown(w: World) {
    forall a :: a in w.runs ==>
      a in w.db.dispatch && (w.db.dispatch[a].status == Terminal ==> a in w.db.receipts)
  }

  /** Only a landing and the end of its run make an item terminal. */
  lemma RunStaysKnown(w: World, action: Action, texts: Texts, a: Id)
    requires a in Act(w, action, texts).runs
    requires a in w.db.dispatch && (w.db.dispatch[a].status == Terminal ==> a in w.db.receipts)
    ensures var later := Act(w, action, texts).db;
            a in later.dispatch && (later.dispatch[a].status == Terminal ==> a in later.receipts)
  {
    ActionEvolves(w, action, texts);
    ActionExtends(w, action, texts);
    if w.db.dispatch[a].status == Terminal {
    } else if action.Commit? {
      StepKeepsRunning(w.db, action.step, texts, a);
    } else {
      ActionKeepsRunning(w, action, texts, a);
    }
  }

  lemma StepKeepsRunning(db: Database, step: Step, texts: Texts, a: Id)
    requires a in db.dispatch && db.dispatch[a].status != Terminal
    ensures a in Apply(db, step, texts).dispatch
    ensures Apply(db, step, texts).dispatch[a].status == Terminal ==> a in Apply(db, step, texts).receipts
  {
  }

  lemma ActionKeepsRunning(w: World, action: Action, texts: Texts, a: Id)
    requires !action.Commit? && a in w.db.dispatch && w.db.dispatch[a].status != Terminal
    requires a in Act(w, action, texts).runs
    ensures a in Act(w, action, texts).db.dispatch
    ensures Act(w, action, texts).db.dispatch[a].status != Terminal
  {
  }

  lemma {:induction false} RunsStayKnown(worlds: seq<World>, actions: seq<Action>, texts: Texts, n: nat)
    requires IsRun(worlds, actions, texts) && n <= |actions| && RunsKnown(worlds[0])
    ensures RunsKnown(worlds[n])
    decreases n
  {
    if n > 0 {
      RunsStayKnown(worlds, actions, texts, n - 1);
      assert Moves(worlds, actions, texts, n - 1);
      forall a | a in worlds[n].runs
        ensures a in worlds[n].db.dispatch
        ensures worlds[n].db.dispatch[a].status == Terminal ==> a in worlds[n].db.receipts
      {
        RunStaysKnown(worlds[n - 1], actions[n - 1], texts, a);
      }
    }
  }

  /** Cancelling Subtasks silences each of them, also with attempts that the
      supervisor had made terminal without a receipt. */
  lemma SubtaskCancellationSilences(
    w: World, texts: Texts, taskId: Id, generationId: Id, revision: int, expected: map<Id, SubtaskStatus>, s: Id)
    requires Coherent(w.db) && RunsKnown(w)
    requires CanCancelSubtasks(w.db, taskId, generationId, revision, expected)
    requires s in expected && AttemptsBelong(w.db, s)
    ensures Silenced(Act(w, Commit(CancelSubtasks(taskId, generationId, revision, expected)), texts), s)
  {
    var later := Act(w, Commit(CancelSubtasks(taskId, generationId, revision, expected)), texts);
    SubtaskCancellationFences(w.db, taskId, generationId, revision, expected);
    var marked, scope := CancelRows(w.db, expected.Keys), Scope(taskId, Some(generationId), Some(expected.Keys));
    forall a | a in later.db.dispatch && later.db.dispatch[a].subtaskId == s
      ensures Harmless(later, a)
    {
      CancellationCatchesAttempts(marked, scope, a);
    }
  }
}
