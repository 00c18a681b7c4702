/**
 Who writes the outcome event of an attempt: the landing of its receipt, or the
 supervisor that reports how its run ended
 (src/execution/attempt-supervisor.ts:98-116,
 src/execution/kernel-execution-runtime.ts:1004-1057). Both use the same id, and
 the inbox keeps the first event of an id.
 */
module OutcomeReports {
  import opened Prelude
  import opened AttemptLanding

  function FirstOf<T>(a: Option<T>, b: Option<T>): Option<T> {
    if a.Some? then a else b
  }

  predicate Reports(action: Action, id: EventId) {
    action.Commit? && action.step.Report? && action.step.event.id == id
  }

  predicate Lands(db: Database, action: Action) {
    action.Commit? && action.step.Land? && CanLand(db, action.step.input)
  }

  /** The event an action offers under an id. */
  function Offered(db: Database, action: Action, texts: Texts, id: EventId): Option<Event> {
    if Reports(action, id) then Some(action.step.event)
    else if Lands(db, action) && action.step.input.event.id == id
    then Some(LandedEvent(db, action.step.input, texts))
    else None
  }

  /** The first event under an id: there at the start, or offered by one of the
      first `n` actions. */
  function FirstOffered(worlds: seq<World>, actions: seq<Action>, texts: Texts, n: nat, id: EventId): Option<Event>
    requires n <= |actions| && |worlds| == |actions| + 1
  {
    if n == 0 then Lookup(worlds[0].db.inbox, id)
    else FirstOf(FirstOffered(worlds, actions, texts, n - 1, id),
                 Offered(worlds[n - 1].db, actions[n - 1], texts, id))
  }

  /** The first report under an id among the first `n` actions. */
  function FirstReported(actions: seq<Action>, n: nat, id: EventId): Option<Event>
    requires n <= |actions|
  {
    if n == 0 then None
    else FirstOf(FirstReported(actions, n - 1, id),
                 if Reports(actions[n - 1], id) then Some(actions[n - 1].step.event) else None)
  }

  ghost predicate Reported(actions: seq<Action>, n: nat, id: EventId)
    requires n <= |actions|
  {
    exists k :: 0 <= k < n && Reports(actions[k], id)
  }

  lemma {:induction false} FirstReportedIff(actions: seq<Action>, n: nat, id: EventId)
    requires n <= |actions|
    ensures FirstReported(actions, n, id).Some? <==> Reported(actions, n, id)
    ensures FirstReported(actions, n, id).Some? ==> FirstReported(actions, n, id).value.id == id
    decreases n
  {
    if n > 0 {
      FirstReportedIff(actions, n - 1, id);
      assert Reported(actions, n - 1, id) ==> Reported(actions, n, id);
    }
  }

  lemma LandingOffers(db: Database, input: Landing, texts: Texts, id: EventId)
    requires CanLand(db, input)
    ensures LandedEvent(db, input, texts).id == input.event.id
    ensures Lookup(AfterLanding(db, input, texts).inbox, id)
            == FirstOf(Lookup(db.inbox, id),
                       if input.event.id == id then Some(LandedEvent(db, input, texts)) else None)
  {
    EnqueuedIsFirst(db, LandedEvent(db, input, texts), id);
  }

  lemma ActionOffers(w: World, action: Action, texts: Texts, id: EventId)
    ensures Lookup(Act(w, action, texts).db.inbox, id)
            == FirstOf(Lookup(w.db.inbox, id), Offered(w.db, action, texts, id))
  {
    if action.Commit? {
      if action.step.Report? {
        EnqueuedIsFirst(w.db, action.step.event, id);
      } else if action.step.Land? {
        if CanLand(w.db, action.step.input) {
          LandingOffers(w.db, action.step.input, texts, id);
        }
      } else {
        StepKeepsInbox(w.db, action.step, texts);
      }
    } else {
      ActionKeepsInbox(w, action, texts);
    }
  }

  /** Over every run the inbox holds, under each id, the first event offered. */
  lemma {:induction false} InboxIsFirstOffered(
    worlds: seq<World>, actions: seq<Action>, texts: Texts, n: nat, id: EventId)
    requires IsRun(worlds, actions, texts) && n <= |actions|
    ensures Lookup(worlds[n].db.inbox, id) == FirstOffered(worlds, actions, texts, n, id)
    decreases n
  {
    if n > 0 {
      InboxIsFirstOffered(worlds, actions, texts, n - 1, id);
      assert Moves(worlds, actions, texts, n - 1);
      ActionOffers(worlds[n - 1], actions[n - 1], texts, id);
    }
  }

  /** The attempt's own landing leaves its receipt. */
  lemma LandingLeavesReceipt(worlds: seq<World>, actions: seq<Action>, texts: Texts, k: nat, id: EventId, a: Id)
    requires IsRun(worlds, actions, texts) && k < |actions|
    requires id == OutcomeOf(a) || id == ContractOf(a)
    requires Lands(worlds[k].db, actions[k]) && actions[k].step.input.event.id == id
    ensures a in worlds[k + 1].db.receipts
  {
    assert Moves(worlds, actions, texts, k);
  }

  /** Before an attempt has landed only reports have written its events. */
  lemma {:induction false} OnlyReportsBeforeLanding(
    worlds: seq<World>, actions: seq<Action>, texts: Texts, k: nat, id: EventId, a: Id)
    requires IsRun(worlds, actions, texts) && k <= |actions| && a !in worlds[k].db.receipts
    requires id == OutcomeOf(a) || id == ContractOf(a)
    ensures FirstOffered(worlds, actions, texts, k, id)
            == FirstOf(Lookup(worlds[0].db.inbox, id), FirstReported(actions, k, id))
    decreases k
  {
    if k > 0 {
      MoveExtends(worlds, actions, texts, k - 1);
      assert Lands(worlds[k - 1].db, actions[k - 1]) ==> actions[k - 1].step.input.event.id != id by {
        if Lands(worlds[k - 1].db, actions[k - 1]) && actions[k - 1].step.input.event.id == id {
          LandingLeavesReceipt(worlds, actions, texts, k - 1, id, a);
        }
      }
      OnlyReportsBeforeLanding(worlds, actions, texts, k - 1, id, a);
    }
  }

  /** After a landing the inbox holds, at all later times, the event of whoever
      won exactly when no other event of that id was reported before: what
      stands there is the first report, and the winner's event if there was
      none. */
  lemma WinnersEventStandsIff(
    worlds: seq<World>, actions: seq<Action>, texts: Texts, k: nat, n: nat, input: Landing)
    requires IsRun(worlds, actions, texts) && k < n <= |actions|
    requires actions[k] == Commit(Land(input)) && CanLand(worlds[k].db, input)
    requires input.event.id !in worlds[0].db.inbox
    ensures var id, landed := input.event.id, LandedEvent(worlds[k].db, input, texts);
            var reported := FirstReported(actions, k, id);
            && id in worlds[n].db.inbox
            && input.receipt.attemptId in worlds[n].db.receipts
            && worlds[n].db.receipts[input.receipt.attemptId] == LandedReceipt(worlds[k].db, input, texts)
            && (reported.Some? <==> Reported(actions, k, id))
            && worlds[n].db.inbox[id] == (if reported.Some? then reported.value else landed)
            && (worlds[n].db.inbox[id] == landed <==> !Reported(actions, k, id) || reported == Some(landed))
  {
    var a, id := input.receipt.attemptId, input.event.id;
    assert Moves(worlds, actions, texts, k);
    InboxIsFirstOffered(worlds, actions, texts, k, id);
    OnlyReportsBeforeLanding(worlds, actions, texts, k, id, a);
    FirstReportedIff(actions, k, id);
    LandingOffers(worlds[k].db, input, texts, id);
    assert a in worlds[k + 1].db.receipts && id in worlds[k + 1].db.inbox;
    RunExtends(worlds, actions, texts, k + 1, n);
  }

  /** The executor won this landing, and reported success. */
  predicate WinsCompleted(db: Database, action: Action, a: Id) {
    && Lands(db, action) && action.step.input.receipt.attemptId == a
    && ExecutorWins(db, action.step.input) && action.step.input.event.completed
  }

  /** An event that says completed was not reported without its landing. */
  lemma CompletedWasLanded(worlds: seq<World>, actions: seq<Action>, texts: Texts, k: nat, a: Id)
    requires IsRun(worlds, actions, texts) && k < |actions| && Sealed(worlds[k].db)
    requires OutcomeOf(a) !in worlds[k].db.inbox
    requires OutcomeOf(a) in worlds[k + 1].db.inbox && worlds[k + 1].db.inbox[OutcomeOf(a)].completed
    ensures WinsCompleted(worlds[k].db, actions[k], a)
  {
    assert Moves(worlds, actions, texts, k);
    ActionOffers(worlds[k], actions[k], texts, OutcomeOf(a));
    assert AttemptSealed(worlds[k].db, a);
  }

  /** No false success: over every run, an outcome event that says completed
      was written by a landing that the executor won. */
  lemma {:induction false} CompletedWasWon(worlds: seq<World>, actions: seq<Action>, texts: Texts, n: nat, a: Id)
    requires IsRun(worlds, actions, texts) && n <= |actions| && Sealed(worlds[0].db)
    requires OutcomeOf(a) !in worlds[0].db.inbox
    requires OutcomeOf(a) in worlds[n].db.inbox && worlds[n].db.inbox[OutcomeOf(a)].completed
    ensures exists k :: 0 <= k < n && WinsCompleted(worlds[k].db, actions[k], a)
    decreases n
  {
    if n > 0 {
      MoveExtends(worlds, actions, texts, n - 1);
      if OutcomeOf(a) in worlds[n - 1].db.inbox {
        CompletedWasWon(worlds, actions, texts, n - 1, a);
      } else {
        SealedOnce(worlds, actions, texts, n - 1);
        CompletedWasLanded(worlds, actions, texts, n - 1, a);
      }
    }
  }

  // ------------------------------------------------------------- a witness

  /** The attempt runs in a Subtask that runs in a Task that runs. */
  predicate IsRunning(db: Database, a: Id) {
    && a in db.dispatch && db.dispatch[a].status == Launched && a !in db.receipts
    && db.dispatch[a].taskId in db.tasks && db.tasks[db.dispatch[a].taskId] == TaskRunning
    && db.dispatch[a].subtaskId in db.subtasks && db.subtasks[db.dispatch[a].subtaskId].status == Running
    && db.subtasks[db.dispatch[a].subtaskId].taskId == db.dispatch[a].taskId
    && OutcomeOf(a) !in db.inbox
  }

  /** A failure of the attempt that writes nothing but its own rows. */
  predicate FailureOf(db: Database, a: Id, input: Landing)
    requires a in db.dispatch
  {
    && OwnLanding(db, input) && input.event.id == OutcomeOf(a) && !input.event.completed
    && input.receipt.attemptId == a && Identified(db, input)
    && input.publication.None? && input.repairPublication.None?
  }

  /** The Task is blocked, so the attempt's landing fails, and the supervisor
      reports a failed launch. */
  function BlockedSchedule(t: Id, a: Id, failed: Landing, summary: Text, report: Event): seq<Action> {
    [Commit(MoveTask(t, TaskBlocked)), Commit(Land(failed)), FailRun(a, summary), Commit(Report(report))]
  }

  /** The Task is unblocked, and the attempt is landed as lost. */
  function LostSchedule(t: Id, lost: Landing): seq<Action> {
    [Commit(MoveTask(t, TaskReady)), Commit(MoveTask(t, TaskRunning)), Commit(Land(lost))]
  }

  /** An outcome event without a receipt. */
  lemma LaunchIsReported(w: World, texts: Texts, a: Id, failed: Landing, summary: Text, report: Event)
    returns (worlds: seq<World>)
    requires IsRunning(w.db, a) && FailureOf(w.db, a, failed)
    requires OwnReport(w.db, report) && report.id == OutcomeOf(a)
    ensures IsRun(worlds, BlockedSchedule(w.db.dispatch[a].taskId, a, failed, summary, report), texts)
    ensures worlds[0] == w && worlds[2] == worlds[1]
    ensures var later := worlds[4].db;
            && OutcomeOf(a) in later.inbox && later.inbox[OutcomeOf(a)] == report
            && later.tasks == w.db.tasks[w.db.dispatch[a].taskId := TaskBlocked]
            && later.subtasks == w.db.subtasks && later.receipts == w.db.receipts
            && later.dispatch == w.db.dispatch[a := AfterMarkUncertain(w.db.dispatch[a], summary)]
  {
    var t := w.db.dispatch[a].taskId;
    var actions := BlockedSchedule(t, a, failed, summary, report);
    var blocked := w.(db := w.db.(tasks := w.db.tasks[t := TaskBlocked]));
    assert LandingFault(blocked.db, failed) == Some(FenceChanged);
    var uncertain := Act(blocked, actions[2], texts);
    var reported := uncertain.(db := Enqueued(uncertain.db, report));
    worlds := [w, blocked, blocked, uncertain, reported];
    assert Moves(worlds, actions, texts, 0) && Moves(worlds, actions, texts, 1);
    assert Moves(worlds, actions, texts, 2) && Moves(worlds, actions, texts, 3);
  }

  /** The landing commits, and its event is ignored. */
  lemma LostIsLanded(w: World, texts: Texts, a: Id, report: Event, lost: Landing) returns (worlds: seq<World>)
    requires a in w.db.dispatch && w.db.dispatch[a].status == DispatchStatus.Uncertain && a !in w.db.receipts
    requires w.db.dispatch[a].taskId in w.db.tasks && w.db.tasks[w.db.dispatch[a].taskId] == TaskBlocked
    requires w.db.dispatch[a].subtaskId in w.db.subtasks
    requires w.db.subtasks[w.db.dispatch[a].subtaskId].status == Running
    requires w.db.subtasks[w.db.dispatch[a].subtaskId].taskId == w.db.dispatch[a].taskId
    requires OutcomeOf(a) in w.db.inbox && w.db.inbox[OutcomeOf(a)] == report
    requires FailureOf(w.db, a, lost)
    ensures IsRun(worlds, LostSchedule(w.db.dispatch[a].taskId, lost), texts) && worlds[0] == w
    ensures CanLand(worlds[2].db, lost) && LandedEvent(worlds[2].db, lost, texts) == lost.event
    ensures a in worlds[3].db.receipts && worlds[3].db.receipts[a] == lost.receipt
    ensures OutcomeOf(a) in worlds[3].db.inbox && worlds[3].db.inbox[OutcomeOf(a)] == report
  {
    var t := w.db.dispatch[a].taskId;
    var actions := LostSchedule(t, lost);
    var ready := w.(db := w.db.(tasks := w.db.tasks[t := TaskReady]));
    var again := w.(db := w.db.(tasks := ready.db.tasks[t := TaskRunning]));
    assert ExecutorWins(again.db, lost) && SubtaskAsExpected(again.db, lost, TaskRunning);
    worlds := [w, ready, again, again.(db := AfterLanding(again.db, lost, texts))];
    assert Moves(worlds, actions, texts, 0) && Moves(worlds, actions, texts, 1) && Moves(worlds, actions, texts, 2);
  }

  /** A sibling blocks the Task while the attempt runs, the supervisor reports,
      and after unblocking the attempt is landed as lost: the receipt says lost,
      and the inbox keeps the report. */
  lemma ReportOutrunsLanding(
    w: World, texts: Texts, a: Id, failed: Landing, summary: Text, report: Event, lost: Landing)
    returns (worlds: seq<World>, actions: seq<Action>)
    requires IsRunning(w.db, a) && FailureOf(w.db, a, failed) && FailureOf(w.db, a, lost)
    requires OwnReport(w.db, report) && report.id == OutcomeOf(a) && report != lost.event
    ensures actions == BlockedSchedule(w.db.dispatch[a].taskId, a, failed, summary, report)
                       + LostSchedule(w.db.dispatch[a].taskId, lost)
    ensures IsRun(worlds, actions, texts) && worlds[0] == w && worlds[2] == worlds[1]
    ensures OutcomeOf(a) in worlds[4].db.inbox && a !in worlds[4].db.receipts
    ensures CanLand(worlds[6].db, lost) && LandedEvent(worlds[6].db, lost, texts) == lost.event
    ensures a in worlds[7].db.receipts && worlds[7].db.receipts[a] == lost.receipt
    ensures OutcomeOf(a) in worlds[7].db.inbox && worlds[7].db.inbox[OutcomeOf(a)] == report != lost.event
  {
    var before := LaunchIsReported(w, texts, a, failed, summary, report);
    var after := LostIsLanded(before[4], texts, a, report, lost);
    actions := BlockedSchedule(w.db.dispatch[a].taskId, a, failed, summary, report)
               + LostSchedule(w.db.dispatch[a].taskId, lost);
    RunsJoin(before, BlockedSchedule(w.db.dispatch[a].taskId, a, failed, summary, report),
             after, LostSchedule(w.db.dispatch[a].taskId, lost), texts);
    worlds := before + after[1..];
  }
}
