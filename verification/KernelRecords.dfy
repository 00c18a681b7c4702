/**
 What arrives in the durable inbox, and when: every submitted event and every
 observation of an applied decision, and nothing else
 (src/kernel/kernel-workflow.ts:106-111,
 src/storage/kernel-workflow-repo.ts:34-37,156-174).
 */
module KernelRecords {
  import opened Prelude
  import opened KernelWorkflow

  /** The observation of every applied application is in the inbox. */
  ghost predicate ObservationsArrived(s: Store) {
    forall a :: a in s.applications && s.applications[a].status == Applied && s.applications[a].observation.Some? ==>
      s.applications[a].observation.value.id in s.events
  }

  /** Some submission brought this row, available from when it was submitted. */
  ghost predicate WasSubmitted(schedule: seq<Label>, id: int, row: EventRow) {
    exists k :: 0 <= k < |schedule| && schedule[k] == Submit(row.event, row.availableAt) && row.event.id == id
  }

  /** Some applied decision observed it, available from when it occurs. */
  ghost predicate WasObserved(s: Store, id: int, row: EventRow) {
    exists a :: a in s.applications && s.applications[a].status == Applied
      && s.applications[a].observation == Some(row.event)
      && row.event.id == id && row.availableAt == row.event.occurredAt
  }

  /** The rows of before are still there, with what arrived and when. */
  ghost predicate Retains(s: Store, t: Store) {
    forall id :: id in s.events ==> id in t.events && SameButStatus(s.events[id], t.events[id])
  }

  /** One step brings the event it submits, or the observation of the decision
      it makes applied; either is pending at first. */
  ghost predicate Brings(s: Store, act: Label, t: Store) {
    && Retains(s, t)
    && (act.Submit? ==> act.event.id in t.events)
    && forall id :: id in t.events && id !in s.events ==>
         && t.events[id].status == Pending
         && (WasSubmitted([act], id, t.events[id]) || WasObserved(t, id, t.events[id]))
  }

  lemma SubmitBrings(deps: Deps, s: State, event: Event, at: int)
    ensures Brings(s.store, Submit(event, at), Step(deps, s, Submit(event, at)).store)
  {
    assert [Submit(event, at)][0] == Submit(event, at);
  }

  lemma TickBrings(deps: Deps, s: State, now: int)
    requires Sound(s.store) && WellPlaced(s)
    ensures Brings(s.store, Tick(now), Advance(deps, s, now).store)
    ensures ObservationsArrived(s.store) ==> ObservationsArrived(Advance(deps, s, now).store)
  {
    var t := Advance(deps, s, now).store;
    if s.phase.Returned? && s.phase.outcome.Observed? && s.phase.outcome.observation.Some?
       && s.store.applications[s.phase.id].status == Applying {
      var o := s.phase.outcome.observation.value;
      assert s.phase.id in t.applications && t.applications[s.phase.id].observation == Some(o);
      assert o.id in t.events;
    }
  }

  lemma StepBrings(deps: Deps, s: State, act: Label)
    requires Sound(s.store) && WellPlaced(s) && Enabled(s, act)
    ensures Brings(s.store, act, Step(deps, s, act).store)
    ensures ObservationsArrived(s.store) ==> ObservationsArrived(Step(deps, s, act).store)
  {
    match act
    case Tick(now) => TickBrings(deps, s, now);
    case Submit(event, at) => SubmitBrings(deps, s, event, at);
    case _ =>
  }

  /** Where a row of the inbox can come from. */
  ghost predicate Explained(s: Store, schedule: seq<Label>, t: Store, id: int)
    requires id in t.events
  {
    || (id in s.events && SameButStatus(s.events[id], t.events[id]))
    || WasSubmitted(schedule, id, t.events[id])
    || WasObserved(t, id, t.events[id])
  }

  lemma ObservedStays(s: Store, t: Store, id: int, row: EventRow, later: EventRow)
    requires WasObserved(s, id, row) && SameButStatus(row, later) && Keeps(s, t)
    ensures WasObserved(t, id, later)
  {
    var a :| a in s.applications && s.applications[a].status == Applied
      && s.applications[a].observation == Some(row.event);
    assert a in t.applications && t.applications[a] == s.applications[a];
  }

  lemma SubmittedStays(act: Label, rest: seq<Label>, id: int, row: EventRow, later: EventRow)
    requires SameButStatus(row, later)
    ensures WasSubmitted([act], id, row) ==> WasSubmitted([act] + rest, id, later)
    ensures WasSubmitted(rest, id, later) ==> WasSubmitted([act] + rest, id, later)
  {
    if WasSubmitted([act], id, row) {
      assert ([act] + rest)[0] == act;
    }
    if k :| 0 <= k < |rest| && rest[k] == Submit(later.event, later.availableAt) && later.event.id == id {
      assert ([act] + rest)[k + 1] == rest[k];
    }
  }

  /** A row explained after the first step is explained from the start. */
  lemma ExplainedEarlier(s: Store, act: Label, m: Store, rest: seq<Label>, t: Store, id: int)
    requires Brings(s, act, m) && Retains(m, t) && Keeps(m, t)
    requires id in t.events && Explained(m, rest, t, id)
    ensures Explained(s, [act] + rest, t, id)
  {
    if id in m.events {
      SubmittedStays(act, rest, id, m.events[id], t.events[id]);
      if id !in s.events && WasObserved(m, id, m.events[id]) {
        ObservedStays(m, t, id, m.events[id], t.events[id]);
      }
    } else {
      SubmittedStays(act, rest, id, t.events[id], t.events[id]);
    }
  }

  lemma RetainsTransitively(s: Store, m: Store, t: Store)
    requires Retains(s, m) && Retains(m, t)
    ensures Retains(s, t)
  {
  }

  /** Over every schedule, crashes and recoveries included: no row of the inbox
      is lost or changes what arrived and when; every submitted event and the
      observation of every applied decision is there; and every row is one of
      those, or was there at the start. */
  lemma {:induction false} InboxIsAccountedFor(deps: Deps, s: State, schedule: seq<Label>)
    requires Sound(s.store) && WellPlaced(s) && Valid(deps, s, schedule) && ObservationsArrived(s.store)
    ensures var t := Run(deps, s, schedule).store;
            && Retains(s.store, t) && ObservationsArrived(t)
            && (forall k :: 0 <= k < |schedule| && schedule[k].Submit? ==> schedule[k].event.id in t.events)
            && (forall id :: id in t.events ==> Explained(s.store, schedule, t, id))
    decreases |schedule|
  {
    if |schedule| > 0 {
      var act, rest := schedule[0], schedule[1..];
      var next := Step(deps, s, act);
      var t := Run(deps, next, rest).store;
      StepBrings(deps, s, act);
      StepKeeps(deps, s, act);
      InboxIsAccountedFor(deps, next, rest);
      IssuedOnce(deps, next, rest);
      RetainsTransitively(s.store, next.store, t);
      assert schedule == [act] + rest;
      forall k | 0 <= k < |schedule| && schedule[k].Submit?
        ensures schedule[k].event.id in t.events
      {
        assert k > 0 ==> schedule[k] == rest[k - 1];
      }
      forall id | id in t.events
        ensures Explained(s.store, schedule, t, id)
      {
        ExplainedEarlier(s.store, act, next.store, rest, t, id);
      }
    }
  }
}
