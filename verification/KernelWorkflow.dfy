/**
 The durable kernel workflow (src/kernel/kernel-workflow.ts) over its SQLite
 store (src/storage/kernel-workflow-repo.ts).

 Kernel policy, snapshots and the side effects of Runtime are parameters. A
 decision's id is `decision_<event id>`, so rows of the decision ledger and of
 the application table are keyed by the event id.
 */
module KernelWorkflow {
  import opened Prelude

  /** Everything Runtime can change and a snapshot can read. */
  type Effects(==, !new)
  type Body(==, !new)
  type Action(==, !new)

  datatype Event = Event(id: int, occurredAt: int, body: Body)
  datatype Decision = Decision(eventId: int, action: Action)

  /** What `runtime.apply` answers: an observation, or an exception. */
  datatype Outcome = Observed(observation: Option<Event>) | Threw

  datatype Deps = Deps(
    decide: (Event, Effects) -> Action,
    apply: (Effects, Decision) -> (Effects, Outcome))

  /** Applying a decision again changes nothing more and answers the same. */
  ghost predicate Idempotent(deps: Deps) {
    forall e, d :: deps.apply(deps.apply(e, d).0, d) == deps.apply(e, d)
  }

  // ---------------------------------------------------------------- store

  datatype EventStatus = Pending | Processing | Processed
  datatype EventRow = EventRow(event: Event, availableAt: int, status: EventStatus)

  datatype ApplicationStatus = ToApply | Applying | Applied | Uncertain
  datatype Application = Application(
    decision: Decision, createdAt: int, status: ApplicationStatus,
    attempts: nat, observation: Option<Event>)

  datatype Store = Store(
    events: map<int, EventRow>,
    ledger: map<int, Decision>,
    applications: map<int, Application>)

  /** INSERT OR IGNORE into the inbox. */
  function Insert(s: Store, event: Event, availableAt: int): Store {
    if event.id in s.events then s
    else s.(events := s.events[event.id := EventRow(event, availableAt, Pending)])
  }

  predicate Claimable(row: EventRow, now: int) {
    row.status == Pending && row.availableAt <= now
  }

  predicate Earlier(a: EventRow, b: EventRow) {
    a.availableAt < b.availableAt
    || (a.availableAt == b.availableAt &&
        (a.event.occurredAt < b.event.occurredAt
         || (a.event.occurredAt == b.event.occurredAt && a.event.id < b.event.id)))
  }

  /** The row that `ORDER BY available_at, created_at, id LIMIT 1` selects. */
  ghost predicate IsNext(events: map<int, EventRow>, now: int, id: int) {
    id in events && Claimable(events[id], now)
    && forall other :: other in events && other != id && Claimable(events[other], now)
         ==> Earlier(events[id], events[other])
  }

  ghost function NextEvent(events: map<int, EventRow>, now: int): Option<int> {
    if id :| IsNext(events, now, id) then Some(id) else None
  }

  predicate AppliesBefore(a: Application, aId: int, b: Application, bId: int) {
    a.createdAt < b.createdAt || (a.createdAt == b.createdAt && aId < bId)
  }

  /** The row that `ORDER BY created_at, id` puts first. */
  ghost predicate IsFirstToApply(applications: map<int, Application>, id: int) {
    id in applications && applications[id].status == ToApply
    && forall other :: other in applications && other != id && applications[other].status == ToApply
         ==> AppliesBefore(applications[id], id, applications[other], other)
  }

  /** The head of `listRecoverableApplications()`. */
  ghost function FirstToApply(applications: map<int, Application>): Option<int> {
    if id :| IsFirstToApply(applications, id) then Some(id) else None
  }

  function Claim(s: Store, id: int): Store
    requires id in s.events
  {
    s.(events := s.events[id := s.events[id].(status := Processing)])
  }

  /** One transaction: ledger row, application row, event processed. */
  function Issue(s: Store, id: int, decision: Decision): Store
    requires id in s.events
  {
    Store(
      s.events[id := s.events[id].(status := Processed)],
      if id in s.ledger then s.ledger else s.ledger[id := decision],
      if id in s.applications then s.applications
      else s.applications[id := Application(decision, s.events[id].event.occurredAt, ToApply, 0, None)])
  }

  function MarkApplying(s: Store, id: int): Store
    requires id in s.applications
  {
    var row := s.applications[id];
    s.(applications := s.applications[id := row.(status := Applying, attempts := row.attempts + 1)])
  }

  function Close(s: Store, id: int, status: ApplicationStatus, observation: Option<Event>): Store
    requires id in s.applications
  {
    s.(applications := s.applications[id :=
      s.applications[id].(status := status, observation := observation)])
  }

  /** One transaction: the observation enters the inbox and the application
      becomes applied; it throws and rolls back unless the row is applying. */
  function MarkApplied(s: Store, id: int, observation: Option<Event>): Option<Store> {
    if id in s.applications && s.applications[id].status == Applying then
      var s' := if observation.Some? then Insert(s, observation.value, observation.value.occurredAt) else s;
      Some(Close(s', id, Applied, observation))
    else None
  }

  function MarkUncertain(s: Store, id: int): Store {
    if id in s.applications && s.applications[id].status == Applying
    then Close(s, id, Uncertain, s.applications[id].observation)
    else s
  }

  /** Puts interrupted rows back, once at startup. */
  function Reconcile(s: Store): Store {
    Store(
      map id | id in s.events :: s.events[id].(status :=
        if s.events[id].status == Processing
        then if id in s.ledger then Processed else Pending
        else s.events[id].status),
      s.ledger,
      map id | id in s.applications :: s.applications[id].(status :=
        if s.applications[id].status == Applying then ToApply else s.applications[id].status))
  }

  // -------------------------------------------------------------- machine

  const MAX_DECISIONS_PER_DRAIN := 100

  /** Where the process is: between drains, at the head of the drain loop,
      between two store calls, waiting on Runtime, or dead. */
  datatype Phase =
    | Rest
    | Head(handled: nat)
    | Claimed(id: int, now: int, handled: nat)
    | InRuntime(id: int, handled: nat)
    | Returned(id: int, outcome: Outcome, handled: nat)
    | Down

  datatype State = State(store: Store, effects: Effects, phase: Phase)

  datatype Label =
    | Tick(now: int)
    | Submit(event: Event, now: int)
    | Crash
    | Recover

  /** Nothing but a crash can come between claimNext and issue: the source
      runs them without giving up the thread. */
  predicate Enabled(s: State, act: Label) {
    match act
    case Tick(_) => !s.phase.Rest? && !s.phase.Down?
    case Submit(_, _) => !s.phase.Claimed?
    case Crash => true
    case Recover => !s.phase.Claimed?
  }

  /** One store call, or one Runtime call, of `drain` and `apply`. */
  ghost function Advance(deps: Deps, s: State, now: int): State {
    match s.phase
    case Rest => s
    case Down => s
    case Head(handled) =>
      if handled >= MAX_DECISIONS_PER_DRAIN then s.(phase := Rest)
      else (match FirstToApply(s.store.applications)
            case Some(id) => s.(store := MarkApplying(s.store, id), phase := InRuntime(id, handled + 1))
            case None =>
              match NextEvent(s.store.events, now)
              case None => s.(phase := Rest)
              case Some(id) => s.(store := Claim(s.store, id), phase := Claimed(id, now, handled)))
    case Claimed(id, _, handled) =>
      if id in s.store.events then
        var event := s.store.events[id].event;
        s.(store := Issue(s.store, id, Decision(event.id, deps.decide(event, s.effects))), phase := Head(handled))
      else s
    case InRuntime(id, handled) =>
      if id in s.store.applications then
        var (effects, outcome) := deps.apply(s.effects, s.store.applications[id].decision);
        s.(effects := effects, phase := Returned(id, outcome, handled))
      else s
    case Returned(id, outcome, handled) =>
      match outcome
      case Threw => s.(store := MarkUncertain(s.store, id), phase := Rest)
      case Observed(observation) =>
        match MarkApplied(s.store, id, observation)
        case Some(store) => s.(store := store, phase := Head(handled))
        case None => s.(store := MarkUncertain(s.store, id), phase := Rest)
  }

  ghost function Step(deps: Deps, s: State, act: Label): State {
    match act
    case Tick(now) => Advance(deps, s, now)
    case Submit(event, now) =>
      s.(store := Insert(s.store, event, now),
         phase := if s.phase.Rest? || s.phase.Down? then Head(0) else s.phase)
    case Crash => s.(phase := Down)
    case Recover =>
      s.(store := Reconcile(s.store),
         phase := if s.phase.Rest? || s.phase.Down? then Head(0) else s.phase)
  }

  ghost function Run(deps: Deps, s: State, schedule: seq<Label>): State
    decreases |schedule|
  {
    if schedule == [] then s else Run(deps, Step(deps, s, schedule[0]), schedule[1..])
  }

  ghost predicate Valid(deps: Deps, s: State, schedule: seq<Label>)
    decreases |schedule|
  {
    schedule == []
    || (Enabled(s, schedule[0]) && Valid(deps, Step(deps, s, schedule[0]), schedule[1..]))
  }

  /** After a crash the next thing a process does is to recover. */
  ghost predicate RecoversFirst(deps: Deps, s: State, schedule: seq<Label>)
    decreases |schedule|
  {
    schedule == []
    || ((s.phase.Down? ==> schedule[0].Crash? || schedule[0].Recover?)
        && RecoversFirst(deps, Step(deps, s, schedule[0]), schedule[1..]))
  }

  predicate CrashFree(schedule: seq<Label>) {
    forall i :: 0 <= i < |schedule| ==> !schedule[i].Crash?
  }

  function Submissions(schedule: seq<Label>): seq<Label>
    decreases |schedule|
  {
    if schedule == [] then []
    else (if schedule[0].Submit? then [schedule[0]] else []) + Submissions(schedule[1..])
  }

  lemma {:induction false} RunAppend(deps: Deps, s: State, a: seq<Label>, b: seq<Label>)
    ensures Run(deps, s, a + b) == Run(deps, Run(deps, s, a), b)
    ensures Valid(deps, s, a) && Valid(deps, Run(deps, s, a), b) ==> Valid(deps, s, a + b)
    decreases |a|
  {
    if a == [] {
      assert a + b == b;
    } else {
      assert (a + b)[0] == a[0] && (a + b)[1..] == a[1..] + b;
      RunAppend(deps, Step(deps, s, a[0]), a[1..], b);
    }
  }

  lemma {:induction false} SubmissionsAppend(a: seq<Label>, b: seq<Label>)
    ensures Submissions(a + b) == Submissions(a) + Submissions(b)
    decreases |a|
  {
    if a == [] {
      assert a + b == b;
    } else {
      assert (a + b)[0] == a[0] && (a + b)[1..] == a[1..] + b;
      SubmissionsAppend(a[1..], b);
    }
  }

  // ------------------------------------------- what every schedule keeps

  /** Holds in every schedule, also one that takes input before recovering. */
  ghost predicate Sound(s: Store) {
    && (forall id :: id in s.events ==> s.events[id].event.id == id)
    && (forall id :: id in s.events && s.events[id].status == Processed ==> id in s.ledger)
    && (forall id :: id in s.ledger ==>
          id in s.applications && id in s.events && s.ledger[id].eventId == id
          && s.applications[id].decision == s.ledger[id])
    && (forall id :: id in s.applications ==> id in s.ledger)
  }

  ghost predicate WellPlaced(s: State) {
    match s.phase
    case Claimed(id, _, _) => id in s.store.events
    case InRuntime(id, _) => id in s.store.applications
    case Returned(id, _, _) => id in s.store.applications
    case _ => true
  }

  /** Rows are never lost, and an issued decision is never replaced. */
  ghost predicate Keeps(s: Store, t: Store) {
    && (forall id :: id in s.events ==> id in t.events && t.events[id].event == s.events[id].event)
    && (forall id :: id in s.ledger ==> id in t.ledger && t.ledger[id] == s.ledger[id])
    && (forall id :: id in s.applications && s.applications[id].status == Applied ==>
          id in t.applications && t.applications[id] == s.applications[id])
  }

  lemma InsertKeeps(s: Store, event: Event, availableAt: int)
    requires Sound(s)
    ensures Sound(Insert(s, event, availableAt)) && Keeps(s, Insert(s, event, availableAt))
  {
  }

  lemma IssueKeeps(s: Store, id: int, action: Action)
    requires Sound(s) && id in s.events
    ensures Sound(Issue(s, id, Decision(id, action))) && Keeps(s, Issue(s, id, Decision(id, action)))
  {
  }

  lemma ClaimKeeps(s: Store, id: int)
    requires Sound(s) && id in s.events
    ensures Sound(Claim(s, id)) && Keeps(s, Claim(s, id))
  {
  }

  /** Every mark rewrites one application that is not applied yet. */
  lemma MarkKeeps(s: Store, id: int, row: Application)
    requires Sound(s) && id in s.applications
    requires s.applications[id].status != Applied && row.decision == s.applications[id].decision
    ensures Sound(s.(applications := s.applications[id := row]))
    ensures Keeps(s, s.(applications := s.applications[id := row]))
  {
  }

  lemma MarkAppliedKeeps(s: Store, id: int, observation: Option<Event>)
    requires Sound(s) && MarkApplied(s, id, observation).Some?
    ensures Sound(MarkApplied(s, id, observation).value)
    ensures Keeps(s, MarkApplied(s, id, observation).value)
  {
    var s' := s;
    if observation.Some? {
      s' := Insert(s, observation.value, observation.value.occurredAt);
      InsertKeeps(s, observation.value, observation.value.occurredAt);
    }
    MarkKeeps(s', id, s'.applications[id].(status := Applied, observation := observation));
  }

  lemma ReconcileKeeps(s: Store)
    requires Sound(s)
    ensures Sound(Reconcile(s)) && Keeps(s, Reconcile(s))
  {
  }

  lemma AdvanceKeeps(deps: Deps, s: State, now: int)
    requires Sound(s.store) && WellPlaced(s)
    ensures Sound(Advance(deps, s, now).store) && WellPlaced(Advance(deps, s, now))
    ensures Keeps(s.store, Advance(deps, s, now).store)
  {
    match s.phase
    case Head(_) =>
      match FirstToApply(s.store.applications) {
        case Some(id) =>
          var row := s.store.applications[id];
          MarkKeeps(s.store, id, row.(status := Applying, attempts := row.attempts + 1));
        case None =>
          if id :| NextEvent(s.store.events, now) == Some(id) {
            ClaimKeeps(s.store, id);
          }
      }
    case Claimed(id, _, _) =>
      IssueKeeps(s.store, id, deps.decide(s.store.events[id].event, s.effects));
    case Returned(id, outcome, _) =>
      if s.store.applications[id].status == Applying {
        MarkKeeps(s.store, id, s.store.applications[id].(status := Uncertain));
        if outcome.Observed? {
          MarkAppliedKeeps(s.store, id, outcome.observation);
        }
      }
    case _ =>
  }

  lemma StepKeeps(deps: Deps, s: State, act: Label)
    requires Sound(s.store) && WellPlaced(s) && Enabled(s, act)
    ensures Sound(Step(deps, s, act).store) && WellPlaced(Step(deps, s, act))
    ensures Keeps(s.store, Step(deps, s, act).store)
  {
    match act
    case Tick(now) => AdvanceKeeps(deps, s, now);
    case Submit(event, now) => InsertKeeps(s.store, event, now);
    case Crash =>
    case Recover => ReconcileKeeps(s.store);
  }

  /** In every schedule of submissions, crashes and recoveries each event has
      at most one decision, which is never changed once issued; no event is
      lost; and an application that is applied stays as it is. */
  lemma {:induction false} IssuedOnce(deps: Deps, s: State, schedule: seq<Label>)
    requires Sound(s.store) && WellPlaced(s) && Valid(deps, s, schedule)
    ensures Sound(Run(deps, s, schedule).store) && WellPlaced(Run(deps, s, schedule))
    ensures Keeps(s.store, Run(deps, s, schedule).store)
    decreases |schedule|
  {
    if schedule != [] {
      StepKeeps(deps, s, schedule[0]);
      IssuedOnce(deps, Step(deps, s, schedule[0]), schedule[1..]);
    }
  }

  // ------------------------------------------------ crashes are invisible

  /** What is durable once interrupted work has been put back; the attempt
      counter is the one trace a crash leaves. */
  function Durable(s: Store): Store {
    var r := Reconcile(s);
    r.(applications := map id | id in r.applications :: r.applications[id].(attempts := 0))
  }

  predicate Open(s: Store, id: int) {
    id in s.applications && (s.applications[id].status == ToApply || s.applications[id].status == Applying)
  }

  ghost predicate NothingOpen(s: Store) {
    forall id :: id in s.applications ==> !Open(s, id)
  }

  ghost predicate OneOpen(s: Store) {
    forall a, b :: Open(s, a) && Open(s, b) ==> a == b
  }

  ghost predicate NothingInFlight(s: Store) {
    forall id :: id in s.events ==> s.events[id].status != Processing
  }

  /** What holds at every point of a schedule that recovers first: rows are in
      flight only where the phase says so, and at most one application is open. */
  ghost predicate Serial(s: State) {
    && Sound(s.store)
    && WellPlaced(s)
    && (forall id :: id in s.store.ledger ==> s.store.events[id].status == Processed)
    && OneOpen(s.store)
    && match s.phase
       case Down => true
       case Claimed(id, now, handled) =>
         && handled < MAX_DECISIONS_PER_DRAIN
         && NothingOpen(s.store)
         && s.store.events[id].status == Processing && id !in s.store.ledger
         && (forall other :: other in s.store.events && s.store.events[other].status == Processing ==> other == id)
         && IsNext(Durable(s.store).events, now, id)
       case InRuntime(id, _) =>
         Open(s.store, id) && NothingInFlight(s.store)
       case Returned(id, _, _) =>
         Open(s.store, id) && NothingInFlight(s.store)
       case _ =>
         && (forall id :: id in s.store.applications ==> s.store.applications[id].status != Applying)
         && NothingInFlight(s.store)
  }

  /** `t` is a crash-free process between two transactions of the drain, and
      `s` is durably where `t` is. Effects of `s` may be ahead by the one
      application whose result is not recorded yet. */
  ghost predicate Follows(deps: Deps, s: State, t: State) {
    && Serial(s) && Serial(t)
    && (t.phase.Rest? || t.phase.Head?)
    && Durable(s.store) == Durable(t.store)
    && match s.phase
       case Returned(id, outcome, _) =>
         id in t.store.applications
         && (s.effects, outcome) == deps.apply(t.effects, t.store.applications[id].decision)
       case _ =>
         s.effects == t.effects
         || exists id :: Open(t.store, id)
              && s.effects == deps.apply(t.effects, t.store.applications[id].decision).0
  }

  lemma FirstIsTheOpenOne(s: State)
    requires Serial(s) && (s.phase.Head? || s.phase.Rest?)
    ensures FirstToApply(s.store.applications).None? <==> NothingOpen(s.store)
    ensures FirstToApply(s.store.applications).Some? ==> Open(s.store, FirstToApply(s.store.applications).value)
  {
    if id :| Open(s.store, id) {
      forall other | other in s.store.applications && s.store.applications[other].status == ToApply
        ensures other == id
      {
        assert Open(s.store, other);
      }
      assert IsFirstToApply(s.store.applications, id);
    }
  }

  lemma MarkLeavesOneOpen(s: Store, id: int)
    requires OneOpen(s) && Open(s, id)
    ensures OneOpen(MarkApplying(s, id)) && Open(MarkApplying(s, id), id)
  {
    forall a | Open(MarkApplying(s, id), a)
      ensures a == id
    {
      assert Open(s, a);
    }
  }

  lemma CloseLeavesNoneOpen(s: Store, id: int, status: ApplicationStatus, observation: Option<Event>)
    requires OneOpen(s) && Open(s, id) && (status == Applied || status == Uncertain)
    ensures NothingOpen(Close(s, id, status, observation))
  {
    var t := Close(s, id, status, observation);
    forall a | a in t.applications
      ensures !Open(t, a)
    {
      if a != id {
        assert Open(t, a) ==> Open(s, a);
      }
    }
  }

  lemma NoMoreOpen(s: Store, t: Store)
    requires OneOpen(s) && forall id :: Open(t, id) ==> Open(s, id)
    ensures OneOpen(t)
  {
  }

  lemma SerialMarks(deps: Deps, s: State, now: int, id: int)
    requires Serial(s) && s.phase.Head? && s.phase.handled < MAX_DECISIONS_PER_DRAIN
    requires FirstToApply(s.store.applications) == Some(id)
    ensures Serial(Advance(deps, s, now))
  {
    StepKeeps(deps, s, Tick(now));
    assert Open(s.store, id);
    MarkLeavesOneOpen(s.store, id);
  }

  lemma SerialClaims(deps: Deps, s: State, now: int)
    requires Serial(s) && s.phase.Head? && s.phase.handled < MAX_DECISIONS_PER_DRAIN
    requires FirstToApply(s.store.applications).None?
    ensures Serial(Advance(deps, s, now))
  {
    FirstIsTheOpenOne(s);
    StepKeeps(deps, s, Tick(now));
  }

  lemma SerialHead(deps: Deps, s: State, now: int)
    requires Serial(s) && s.phase.Head?
    ensures Serial(Advance(deps, s, now))
  {
    if s.phase.handled < MAX_DECISIONS_PER_DRAIN {
      match FirstToApply(s.store.applications)
      case Some(id) => SerialMarks(deps, s, now, id);
      case None => SerialClaims(deps, s, now);
    }
  }

  lemma SerialDecides(deps: Deps, s: State, now: int)
    requires Serial(s) && s.phase.Claimed?
    ensures Serial(Advance(deps, s, now))
  {
    StepKeeps(deps, s, Tick(now));
  }

  lemma SerialApplies(deps: Deps, s: State, now: int)
    requires Serial(s) && s.phase.InRuntime?
    ensures Serial(Advance(deps, s, now))
  {
    StepKeeps(deps, s, Tick(now));
  }

  lemma RecordingInserts(s: Store, id: int, observation: Option<Event>)
    requires OneOpen(s) && Open(s, id) && s.applications[id].status == Applying && NothingInFlight(s)
    ensures var t := MarkApplied(s, id, observation).value;
            && t.ledger == s.ledger && NothingOpen(t) && NothingInFlight(t)
            && (forall e :: e in s.events ==> e in t.events && t.events[e] == s.events[e])
  {
    var s' := s;
    if observation.Some? {
      s' := Insert(s, observation.value, observation.value.occurredAt);
      forall a | Open(s', a)
        ensures Open(s, a)
      {
      }
      NoMoreOpen(s, s');
    }
    CloseLeavesNoneOpen(s', id, Applied, observation);
  }

  lemma UncertainKeepsInbox(s: Store, id: int)
    requires OneOpen(s) && Open(s, id) && NothingInFlight(s)
    ensures var t := MarkUncertain(s, id);
            && t.ledger == s.ledger && t.events == s.events && OneOpen(t)
            && forall a :: a in t.applications ==> t.applications[a].status != Applying
  {
    if s.applications[id].status == Applying {
      CloseLeavesNoneOpen(s, id, Uncertain, s.applications[id].observation);
      var t := MarkUncertain(s, id);
      assert forall a :: a in t.applications ==> !Open(t, a);
    } else {
      forall a | a in s.applications
        ensures s.applications[a].status != Applying
      {
        assert s.applications[a].status == Applying ==> Open(s, a);
      }
    }
  }

  lemma SerialRecords(deps: Deps, s: State, now: int)
    requires Serial(s) && s.phase.Returned?
    ensures Serial(Advance(deps, s, now))
  {
    StepKeeps(deps, s, Tick(now));
    UncertainKeepsInbox(s.store, s.phase.id);
    if s.phase.outcome.Observed? && s.store.applications[s.phase.id].status == Applying {
      RecordingInserts(s.store, s.phase.id, s.phase.outcome.observation);
    }
  }

  lemma SerialTick(deps: Deps, s: State, now: int)
    requires Serial(s) && Enabled(s, Tick(now))
    ensures Serial(Advance(deps, s, now))
  {
    match s.phase
    case Head(_) => SerialHead(deps, s, now);
    case Claimed(_, _, _) => SerialDecides(deps, s, now);
    case InRuntime(_, _) => SerialApplies(deps, s, now);
    case Returned(_, _, _) => SerialRecords(deps, s, now);
  }

  lemma SerialSubmit(deps: Deps, s: State, event: Event, now: int)
    requires Serial(s) && Enabled(s, Submit(event, now)) && !s.phase.Down?
    ensures Serial(Step(deps, s, Submit(event, now)))
  {
    StepKeeps(deps, s, Submit(event, now));
    forall a | Open(Insert(s.store, event, now), a)
      ensures Open(s.store, a)
    {
    }
    NoMoreOpen(s.store, Insert(s.store, event, now));
  }

  lemma SerialRestart(deps: Deps, s: State, act: Label)
    requires Serial(s) && Enabled(s, act) && (act.Crash? || act.Recover?)
    ensures Serial(Step(deps, s, act))
  {
    StepKeeps(deps, s, act);
    forall a | Open(Reconcile(s.store), a)
      ensures Open(s.store, a)
    {
    }
    NoMoreOpen(s.store, Reconcile(s.store));
  }

  lemma SerialStep(deps: Deps, s: State, act: Label)
    requires Serial(s) && Enabled(s, act)
    requires s.phase.Down? ==> act.Crash? || act.Recover?
    ensures Serial(Step(deps, s, act))
  {
    match act
    case Tick(now) => SerialTick(deps, s, now);
    case Submit(event, now) => SerialSubmit(deps, s, event, now);
    case _ => SerialRestart(deps, s, act);
  }

  // Store calls that only put work in flight change nothing durable, and the
  // others act alike on stores that are durably equal.

  lemma ReconcileIsNotDurable(s: Store)
    requires Sound(s)
    ensures Durable(Reconcile(s)) == Durable(s)
  {
    assert Reconcile(Reconcile(s)).events == Reconcile(s).events;
    assert Reconcile(Reconcile(s)).applications == Reconcile(s).applications;
  }

  lemma ClaimIsNotDurable(s: Store, id: int)
    requires Sound(s) && id in s.events && s.events[id].status == Pending && id !in s.ledger
    ensures Durable(Claim(s, id)) == Durable(s)
  {
    assert Reconcile(Claim(s, id)).events == Reconcile(s).events;
  }

  lemma MarkIsNotDurable(s: Store, id: int)
    requires id in s.applications && s.applications[id].status == ToApply
    ensures Durable(MarkApplying(s, id)) == Durable(s)
  {
    assert Durable(MarkApplying(s, id)).applications == Durable(s).applications;
  }

  lemma DurableInsert(s: Store, event: Event, at: int)
    requires Sound(s)
    ensures Durable(Insert(s, event, at)) == Insert(Durable(s), event, at)
  {
    assert event.id in s.ledger ==> event.id in s.events;
  }

  lemma DurableIssue(s: Store, id: int, decision: Decision)
    requires Sound(s) && id in s.events && id !in s.ledger
    ensures Durable(Issue(s, id, decision)) == Issue(Durable(s), id, decision)
  {
    assert id !in s.applications;
    assert Durable(Issue(s, id, decision)).events == Issue(Durable(s), id, decision).events;
    assert Durable(Issue(s, id, decision)).applications == Issue(Durable(s), id, decision).applications;
  }

  lemma DurableClose(s: Store, id: int, status: ApplicationStatus, observation: Option<Event>)
    requires id in s.applications && (status == Applied || status == Uncertain)
    ensures Durable(Close(s, id, status, observation)) == Close(Durable(s), id, status, observation)
  {
    assert Durable(Close(s, id, status, observation)).applications
        == Close(Durable(s), id, status, observation).applications;
  }

  /** Takes a resting process, or one at its drain limit, to a fresh drain. */
  function Wake(t: State): seq<Label> {
    match t.phase
    case Rest => [Recover]
    case Head(handled) => if handled < MAX_DECISIONS_PER_DRAIN then [] else [Tick(0), Recover]
    case _ => []
  }

  lemma QuietReconcile(s: Store)
    requires NothingInFlight(s)
    requires forall id :: id in s.applications ==> s.applications[id].status != Applying
    ensures Reconcile(s) == s
  {
    var r := Reconcile(s);
    forall id | id in s.events ensures r.events[id] == s.events[id] {
      assert s.events[id].(status := s.events[id].status) == s.events[id];
    }
    assert r.events == s.events;
    forall id | id in s.applications ensures r.applications[id] == s.applications[id] {
      assert s.applications[id].(status := s.applications[id].status) == s.applications[id];
    }
    assert r.applications == s.applications;
  }

  lemma WakeWorks(deps: Deps, t: State)
    requires Serial(t) && (t.phase.Rest? || t.phase.Head?)
    ensures Valid(deps, t, Wake(t)) && CrashFree(Wake(t)) && Submissions(Wake(t)) == []
    ensures var t' := Run(deps, t, Wake(t));
            t'.phase.Head? && t'.phase.handled < MAX_DECISIONS_PER_DRAIN
            && t'.store == t.store && t'.effects == t.effects
  {
    QuietReconcile(t.store);
    var rest := t.(phase := Rest);
    assert Step(deps, rest, Recover) == t.(phase := Head(0));
    assert Run(deps, rest, [Recover]) == Run(deps, t.(phase := Head(0)), []);
    if t.phase.Head? && t.phase.handled >= MAX_DECISIONS_PER_DRAIN {
      assert [Tick(0), Recover][1..] == [Recover];
      assert Step(deps, t, Tick(0)) == rest;
    }
  }

  lemma NextIsUnique(events: map<int, EventRow>, now: int, a: int, b: int)
    requires forall id :: id in events ==> events[id].event.id == id
    requires IsNext(events, now, a) && IsNext(events, now, b)
    ensures a == b
  {
  }

  lemma RunTicks(deps: Deps, t: State, now: int)
    ensures Run(deps, t, [Tick(now)]) == Advance(deps, t, now)
    ensures Run(deps, t, [Tick(now), Tick(now)]) == Advance(deps, Advance(deps, t, now), now)
    ensures CrashFree([Tick(now), Tick(now)]) && Submissions([Tick(now), Tick(now)]) == []
  {
    assert [Tick(now)][1..] == [];
    assert Run(deps, t, [Tick(now)]) == Run(deps, Advance(deps, t, now), []);
    assert [Tick(now), Tick(now)][1..] == [Tick(now)];
    var t1 := Advance(deps, t, now);
    assert Run(deps, t1, [Tick(now)]) == Run(deps, Advance(deps, t1, now), []);
    assert Submissions([Tick(now)]) == Submissions([]);
  }

  lemma NothingOpenAlike(s: Store, t: Store)
    requires Durable(s) == Durable(t) && NothingOpen(s)
    ensures NothingOpen(t)
  {
    forall id | id in t.applications ensures !Open(t, id) {
      assert id in Durable(t).applications && id in Durable(s).applications;
      assert Durable(t).applications[id].status == Durable(s).applications[id].status;
    }
  }

  /** The crash-free process finds the same event next in the inbox. */
  lemma CalmClaims(deps: Deps, s: State, t: State)
    requires Follows(deps, s, t) && s.phase.Claimed?
    requires t.phase.Head? && t.phase.handled < MAX_DECISIONS_PER_DRAIN
    ensures var id := s.phase.id;
            && s.effects == t.effects
            && id in t.store.events && id !in t.store.ledger && t.store.events[id].status == Pending
            && t.store.events[id].event == s.store.events[id].event
            && Advance(deps, t, s.phase.now)
               == t.(store := Claim(t.store, id), phase := Claimed(id, s.phase.now, t.phase.handled))
  {
    var id, now := s.phase.id, s.phase.now;
    QuietReconcile(t.store);
    assert IsNext(t.store.events, now, id);
    NothingOpenAlike(s.store, t.store);
    assert FirstToApply(t.store.applications).None?;
    forall b | IsNext(t.store.events, now, b) ensures b == id {
      NextIsUnique(t.store.events, now, id, b);
    }
    assert Durable(s.store).events[id].event == s.store.events[id].event;
  }

  /** The crash-free process claims and decides the same event. */
  lemma CalmDecides(deps: Deps, s: State, t: State)
    returns (moves: seq<Label>)
    requires Follows(deps, s, t) && s.phase.Claimed?
    requires t.phase.Head? && t.phase.handled < MAX_DECISIONS_PER_DRAIN
    ensures Valid(deps, t, moves) && CrashFree(moves) && Submissions(moves) == []
    ensures Follows(deps, Advance(deps, s, 0), Run(deps, t, moves))
  {
    var id, now := s.phase.id, s.phase.now;
    CalmClaims(deps, s, t);
    var t1 := Advance(deps, t, now);
    moves := [Tick(now), Tick(now)];
    RunTicks(deps, t, now);
    RunTicks(deps, t1, now);
    assert Valid(deps, t1, moves[1..]);
    SerialStep(deps, t, Tick(now));
    SerialStep(deps, t1, Tick(now));
    SerialStep(deps, s, Tick(0));
    var event := s.store.events[id].event;
    var decision := Decision(event.id, deps.decide(event, s.effects));
    DurableIssue(s.store, id, decision);
    ClaimIsNotDurable(t.store, id);
    DurableIssue(t1.store, id, decision);
  }

  lemma RunThreeTicks(deps: Deps, t: State)
    ensures Run(deps, t, [Tick(0), Tick(0), Tick(0)]) == Advance(deps, Advance(deps, Advance(deps, t, 0), 0), 0)
    ensures CrashFree([Tick(0), Tick(0), Tick(0)]) && Submissions([Tick(0), Tick(0), Tick(0)]) == []
  {
    assert [Tick(0), Tick(0), Tick(0)][1..] == [Tick(0), Tick(0)];
    RunTicks(deps, Advance(deps, t, 0), 0);
    RunTicks(deps, t, 0);
  }

  lemma OpenAlike(s: Store, t: Store, id: int)
    requires Durable(s) == Durable(t) && Open(s, id)
    ensures Open(t, id) && t.applications[id].decision == s.applications[id].decision
  {
    assert id in Durable(s).applications && id in Durable(t).applications;
    assert Durable(t).applications[id].status == Durable(s).applications[id].status;
    assert Durable(t).applications[id].decision == Durable(s).applications[id].decision;
    assert Durable(t).applications[id].observation == Durable(s).applications[id].observation;
  }

  /** The crash-free process takes the same application and gets the outcome
      that `s` has in hand, with the effects `s` already shows. */
  lemma CalmApplies(deps: Deps, s: State, t: State)
    requires Follows(deps, s, t) && s.phase.Returned?
    requires t.phase.Head? && t.phase.handled < MAX_DECISIONS_PER_DRAIN
    ensures var id := s.phase.id; var t2 := Advance(deps, Advance(deps, t, 0), 0);
            && Serial(t2)
            && t2 == State(MarkApplying(t.store, id), s.effects, Returned(id, s.phase.outcome, t.phase.handled + 1))
            && Durable(t2.store) == Durable(s.store)
            && t2.store.applications[id].status == Applying
  {
    var id := s.phase.id;
    OpenAlike(s.store, t.store, id);
    FirstIsTheOpenOne(t);
    assert FirstToApply(t.store.applications) == Some(id);
    SerialStep(deps, t, Tick(0));
    SerialStep(deps, Advance(deps, t, 0), Tick(0));
    MarkIsNotDurable(t.store, id);
  }

  /** Recording the outcome is the same transaction in both processes. */
  lemma CalmRecords(deps: Deps, s: State, t: State)
    returns (moves: seq<Label>)
    requires Follows(deps, s, t) && s.phase.Returned?
    requires s.store.applications[s.phase.id].status == Applying
    requires t.phase.Head? && t.phase.handled < MAX_DECISIONS_PER_DRAIN
    ensures Valid(deps, t, moves) && CrashFree(moves) && Submissions(moves) == []
    ensures Follows(deps, Advance(deps, s, 0), Run(deps, t, moves))
  {
    var id := s.phase.id;
    moves := [Tick(0), Tick(0), Tick(0)];
    var t1 := Advance(deps, t, 0);
    var t2 := Advance(deps, t1, 0);
    var t3 := Advance(deps, t2, 0);
    CalmApplies(deps, s, t);
    RunThreeTicks(deps, t);
    assert t1.phase.InRuntime?;
    assert moves[1..] == [Tick(0), Tick(0)] && moves[1..][1..] == [Tick(0)];
    assert Valid(deps, t2, [Tick(0)]) && Valid(deps, t1, moves[1..]);
    SerialStep(deps, s, Tick(0));
    SerialStep(deps, t2, Tick(0));
    RecordAlike(s.store, t2.store, id, s.phase.outcome);
  }

  lemma RecordAlike(s: Store, t: Store, id: int, outcome: Outcome)
    requires Sound(s) && Sound(t) && Durable(s) == Durable(t)
    requires id in s.applications && s.applications[id].status == Applying
    requires id in t.applications && t.applications[id].status == Applying
    ensures Durable(MarkUncertain(s, id)) == Durable(MarkUncertain(t, id))
    ensures outcome.Observed? ==>
              Durable(MarkApplied(s, id, outcome.observation).value)
              == Durable(MarkApplied(t, id, outcome.observation).value)
  {
    assert Durable(s).applications[id].observation == Durable(t).applications[id].observation;
    DurableClose(s, id, Uncertain, s.applications[id].observation);
    DurableClose(t, id, Uncertain, t.applications[id].observation);
    if outcome.Observed? {
      var o := outcome.observation;
      var s', t' := s, t;
      if o.Some? {
        s' := Insert(s, o.value, o.value.occurredAt);
        t' := Insert(t, o.value, o.value.occurredAt);
        DurableInsert(s, o.value, o.value.occurredAt);
        DurableInsert(t, o.value, o.value.occurredAt);
      }
      DurableClose(s', id, Applied, o);
      DurableClose(t', id, Applied, o);
    }
  }

  /** Ticks that write nothing durable: the crash-free process waits. */
  lemma CalmWaits(deps: Deps, s: State, t: State, now: int)
    requires Idempotent(deps) && Follows(deps, s, t)
    requires s.phase.Head? || s.phase.InRuntime?
             || (s.phase.Returned? && s.store.applications[s.phase.id].status != Applying)
    ensures Follows(deps, Advance(deps, s, now), t)
  {
    SerialStep(deps, s, Tick(now));
    match s.phase
    case Head(_) =>
      match FirstToApply(s.store.applications) {
        case Some(id) => MarkIsNotDurable(s.store, id);
        case None =>
          FirstIsTheOpenOne(s);
          NothingOpenAlike(s.store, t.store);
          if id :| NextEvent(s.store.events, now) == Some(id) {
            ClaimIsNotDurable(s.store, id);
          }
      }
    case InRuntime(id, _) =>
      OpenAlike(s.store, t.store, id);
    case Returned(id, _, _) =>
      OpenAlike(s.store, t.store, id);
  }

  /** Moves after waking, as moves from where the crash-free process was. */
  lemma AfterWaking(deps: Deps, s: State, t: State, rest: seq<Label>)
    requires Valid(deps, t, Wake(t)) && CrashFree(Wake(t)) && Submissions(Wake(t)) == []
    requires Valid(deps, Run(deps, t, Wake(t)), rest) && CrashFree(rest) && Submissions(rest) == []
    ensures var moves := Wake(t) + rest;
            && Valid(deps, t, moves) && CrashFree(moves) && Submissions(moves) == []
            && Run(deps, t, moves) == Run(deps, Run(deps, t, Wake(t)), rest)
  {
    RunAppend(deps, t, Wake(t), rest);
    SubmissionsAppend(Wake(t), rest);
  }

  /** The crash-free process wakes and makes the same durable step. */
  lemma SimulateTransaction(deps: Deps, s: State, t: State, now: int)
    returns (moves: seq<Label>)
    requires Idempotent(deps) && Follows(deps, s, t) && Enabled(s, Tick(now))
    requires s.phase.Claimed? || (s.phase.Returned? && s.store.applications[s.phase.id].status == Applying)
    ensures Valid(deps, t, moves) && CrashFree(moves) && Submissions(moves) == []
    ensures Follows(deps, Advance(deps, s, now), Run(deps, t, moves))
  {
    WakeWorks(deps, t);
    var awake := Run(deps, t, Wake(t));
    var rest;
    if s.phase.Claimed? {
      rest := CalmDecides(deps, s, awake);
    } else {
      rest := CalmRecords(deps, s, awake);
    }
    AfterWaking(deps, s, t, rest);
    moves := Wake(t) + rest;
  }

  lemma SimulateTick(deps: Deps, s: State, t: State, now: int)
    returns (moves: seq<Label>)
    requires Idempotent(deps) && Follows(deps, s, t) && Enabled(s, Tick(now))
    ensures Valid(deps, t, moves) && CrashFree(moves) && Submissions(moves) == []
    ensures Follows(deps, Advance(deps, s, now), Run(deps, t, moves))
  {
    if s.phase.Claimed? || (s.phase.Returned? && s.store.applications[s.phase.id].status == Applying) {
      moves := SimulateTransaction(deps, s, t, now);
    } else {
      CalmWaits(deps, s, t, now);
      moves := [];
    }
  }

  lemma SimulateSubmit(deps: Deps, s: State, t: State, event: Event, now: int)
    requires Follows(deps, s, t) && Enabled(s, Submit(event, now)) && !s.phase.Down?
    ensures var act := Submit(event, now);
            && Valid(deps, t, [act]) && Run(deps, t, [act]) == Step(deps, t, act)
            && Follows(deps, Step(deps, s, act), Step(deps, t, act))
  {
    var act := Submit(event, now);
    assert [act][1..] == [];
    SerialStep(deps, s, act);
    SerialStep(deps, t, act);
    DurableInsert(s.store, event, now);
    DurableInsert(t.store, event, now);
    assert Run(deps, t, [act]) == Run(deps, Step(deps, t, act), []);
  }

  lemma SimulateCrash(deps: Deps, s: State, t: State)
    requires Follows(deps, s, t)
    ensures Follows(deps, Step(deps, s, Crash), t)
  {
    SerialStep(deps, s, Crash);
    if s.phase.Returned? {
      OpenAlike(s.store, t.store, s.phase.id);
    }
  }

  lemma SimulateRecover(deps: Deps, s: State, t: State)
    requires Follows(deps, s, t) && Enabled(s, Recover)
    ensures Follows(deps, Step(deps, s, Recover), t)
  {
    SerialStep(deps, s, Recover);
    ReconcileKeeps(s.store);
    ReconcileIsNotDurable(s.store);
  }

  lemma SimulateStep(deps: Deps, s: State, t: State, act: Label)
    returns (moves: seq<Label>)
    requires Idempotent(deps) && Follows(deps, s, t) && Enabled(s, act)
    requires s.phase.Down? ==> act.Crash? || act.Recover?
    ensures Valid(deps, t, moves) && CrashFree(moves) && Submissions(moves) == Submissions([act])
    ensures Follows(deps, Step(deps, s, act), Run(deps, t, moves))
  {
    assert [act][1..] == [];
    match act
    case Tick(now) =>
      moves := SimulateTick(deps, s, t, now);
    case Submit(event, now) =>
      moves := [act];
      SimulateSubmit(deps, s, t, event, now);
    case Crash =>
      moves := [];
      SimulateCrash(deps, s, t);
    case Recover =>
      moves := [];
      SimulateRecover(deps, s, t);
  }

  /** Crash-free moves for the first action and for the others, joined. */
  lemma CalmAppends(deps: Deps, t: State, moves: seq<Label>, rest: seq<Label>, schedule: seq<Label>)
    requires schedule != []
    requires Valid(deps, t, moves) && CrashFree(moves) && Submissions(moves) == Submissions([schedule[0]])
    requires Valid(deps, Run(deps, t, moves), rest) && CrashFree(rest)
    requires Submissions(rest) == Submissions(schedule[1..])
    ensures Valid(deps, t, moves + rest) && CrashFree(moves + rest)
    ensures Submissions(moves + rest) == Submissions(schedule)
    ensures Run(deps, t, moves + rest) == Run(deps, Run(deps, t, moves), rest)
  {
    RunAppend(deps, t, moves, rest);
    SubmissionsAppend(moves, rest);
    assert schedule == [schedule[0]] + schedule[1..];
    SubmissionsAppend([schedule[0]], schedule[1..]);
  }

  lemma {:induction false} Simulate(deps: Deps, s: State, t: State, schedule: seq<Label>)
    returns (calm: seq<Label>)
    requires Idempotent(deps) && Follows(deps, s, t)
    requires Valid(deps, s, schedule) && RecoversFirst(deps, s, schedule)
    ensures Valid(deps, t, calm) && CrashFree(calm) && Submissions(calm) == Submissions(schedule)
    ensures Follows(deps, Run(deps, s, schedule), Run(deps, t, calm))
    decreases |schedule|
  {
    if schedule == [] {
      calm := [];
    } else {
      var act := schedule[0];
      var moves := SimulateStep(deps, s, t, act);
      var rest := Simulate(deps, Step(deps, s, act), Run(deps, t, moves), schedule[1..]);
      calm := moves + rest;
      CalmAppends(deps, t, moves, rest, schedule);
    }
  }

  ghost predicate Fresh(s: State) {
    s.store == Store(map[], map[], map[]) && s.phase == Rest
  }

  /** Some process that never crashes receives the same submissions in the same
      order and ends with the same inbox, decision ledger, applications and
      effects. While an application is open its effects may already show. */
  ghost predicate EqualsCalmRun(deps: Deps, start: State, schedule: seq<Label>, calm: seq<Label>) {
    var end, calmEnd := Run(deps, start, schedule), Run(deps, start, calm);
    && Valid(deps, start, calm) && CrashFree(calm)
    && Submissions(calm) == Submissions(schedule)
    && Durable(end.store) == Durable(calmEnd.store)
    && (NothingOpen(end.store) ==> end.effects == calmEnd.effects)
  }

  /** Crashes at any point, each followed by a recovery, change nothing. */
  lemma CrashesAreInvisible(deps: Deps, start: State, schedule: seq<Label>)
    requires Idempotent(deps) && Fresh(start)
    requires Valid(deps, start, schedule) && RecoversFirst(deps, start, schedule)
    ensures exists calm :: EqualsCalmRun(deps, start, schedule, calm)
  {
    var calm := Simulate(deps, start, start, schedule);
    var end, calmEnd := Run(deps, start, schedule), Run(deps, start, calm);
    if NothingOpen(end.store) {
      NothingOpenAlike(end.store, calmEnd.store);
      assert end.effects == calmEnd.effects;
    }
    assert EqualsCalmRun(deps, start, schedule, calm);
  }

  /** In a schedule that recovers first nothing is claimed while an accepted
      application is still to be finished, and at most one is unfinished. */
  lemma {:induction false} StaysSerial(deps: Deps, s: State, schedule: seq<Label>)
    requires Serial(s) && Valid(deps, s, schedule) && RecoversFirst(deps, s, schedule)
    ensures Serial(Run(deps, s, schedule))
    ensures Run(deps, s, schedule).phase.Claimed? ==> NothingOpen(Run(deps, s, schedule).store)
    ensures OneOpen(Run(deps, s, schedule).store)
    decreases |schedule|
  {
    if schedule != [] {
      SerialStep(deps, s, schedule[0]);
      StaysSerial(deps, Step(deps, s, schedule[0]), schedule[1..]);
    }
  }

  // ------------------------------------------------------ the application

  predicate OnlyTicks(schedule: seq<Label>) {
    forall i :: 0 <= i < |schedule| ==> schedule[i].Tick?
  }

  ghost predicate ByTicks(deps: Deps, s: State, moves: seq<Label>, t: State) {
    OnlyTicks(moves) && Valid(deps, s, moves) && Run(deps, s, moves) == t
  }

  ghost predicate ThreeTicks(deps: Deps, s: State, t: State) {
    && Enabled(s, Tick(0))
    && Enabled(Advance(deps, s, 0), Tick(0))
    && Enabled(Advance(deps, Advance(deps, s, 0), 0), Tick(0))
    && Advance(deps, Advance(deps, Advance(deps, s, 0), 0), 0) == t
  }

  lemma ThreeTicksFollow(deps: Deps, start: State, moves: seq<Label>, s: State, t: State)
    returns (longer: seq<Label>)
    requires ByTicks(deps, start, moves, s) && ThreeTicks(deps, s, t)
    requires Sound(s.store) && WellPlaced(s)
    ensures ByTicks(deps, start, longer, t)
    ensures Sound(t.store) && WellPlaced(t) && Keeps(s.store, t.store)
  {
    var three := [Tick(0), Tick(0), Tick(0)];
    RunThreeTicks(deps, s);
    assert three[1..][1..] == [Tick(0)];
    assert Valid(deps, Advance(deps, Advance(deps, s, 0), 0), three[1..][1..]);
    assert Valid(deps, Advance(deps, s, 0), three[1..]);
    RunAppend(deps, start, moves, three);
    longer := moves + three;
    IssuedOnce(deps, s, three);
  }

  /** What a drain reports. */
  function Summary(s: Store, decisions: seq<Decision>): (result: WorkflowResult)
    ensures result.decisions == decisions && result.quiescent == NothingOpen(s)
    ensures result.pendingRecovery == |UncertainIds(s.applications)|
  {
    WorkflowResult(decisions, (forall id | id in s.applications :: !Open(s, id)), |UncertainIds(s.applications)|)
  }

  /** What one more round keeps, and what it lists. */
  lemma RoundKeeps(first: Store, s: Store, t: Store, decisions: seq<Decision>)
    requires Keeps(first, s) && Keeps(s, t)
    requires forall d :: d in decisions ==> Listed(s, d)
    ensures Keeps(first, t) && forall d :: d in decisions ==> Listed(t, d)
  {
  }

  /** One tick, and a second one when the first claimed an event. */
  lemma TicksFollow(deps: Deps, start: State, moves: seq<Label>, s: State, now: int)
    returns (longer: seq<Label>)
    requires ByTicks(deps, start, moves, s) && Enabled(s, Tick(now))
    requires Sound(s.store) && WellPlaced(s)
    ensures var t := Advance(deps, s, now);
            var t' := if t.phase.Claimed? then Advance(deps, t, now) else t;
            ByTicks(deps, start, longer, t') && Sound(t'.store) && WellPlaced(t') && Keeps(s.store, t'.store)
  {
    var t := Advance(deps, s, now);
    var ticks := if t.phase.Claimed? then [Tick(now), Tick(now)] else [Tick(now)];
    RunTicks(deps, s, now);
    assert Valid(deps, t, ticks[1..]);
    RunAppend(deps, start, moves, ticks);
    longer := moves + ticks;
    IssuedOnce(deps, s, ticks);
  }

  function PendingIds(events: map<int, EventRow>): set<int> {
    set id | id in events && events[id].status == Pending
  }

  function UncertainIds(applications: map<int, Application>): set<int> {
    set id | id in applications && applications[id].status == Uncertain
  }

  predicate Listed(s: Store, decision: Decision) {
    decision.eventId in s.ledger && s.ledger[decision.eventId] == decision
  }

  /** Why a drain stopped: nothing was left at that time, or a Runtime call threw. */
  ghost predicate Settled(s: Store, idleAt: Option<int>) {
    if idleAt.Some? then FirstToApply(s.applications).None? && NextEvent(s.events, idleAt.value).None?
    else UncertainIds(s.applications) != {}
  }

  predicate SameButStatus(a: EventRow, b: EventRow) {
    a.event == b.event && a.availableAt == b.availableAt
  }

  /** An event and what was decided for it: processed, in the ledger, and waiting
      to be applied; nothing else changes, and what was decided before stays. */
  ghost predicate Decided(s: Store, t: Store, id: int, action: Action)
    requires id in s.events
  {
    && t.events == s.events[id := s.events[id].(status := Processed)]
    && t.ledger.Keys == s.ledger.Keys + {id} && t.applications.Keys == s.applications.Keys + {id}
    && (forall e :: e in s.ledger ==> t.ledger[e] == s.ledger[e])
    && (forall a :: a in s.applications ==> t.applications[a] == s.applications[a])
    && (id !in s.ledger ==> t.ledger[id] == Decision(id, action))
    && (id !in s.applications ==>
          t.applications[id] == Application(Decision(id, action), s.events[id].event.occurredAt, ToApply, 0, None))
  }

  /** Of the rows that are pending and available: the earliest by availability,
      by when the event occurred, and by id. */
  ghost predicate IsFirst(events: map<int, EventRow>, now: int, id: int) {
    && id in events && events[id].status == Pending && events[id].availableAt <= now
    && forall other :: other in events && events[other].status == Pending && events[other].availableAt <= now ==>
         && events[id].availableAt <= events[other].availableAt
         && (events[id].availableAt == events[other].availableAt ==>
               && events[id].event.occurredAt <= events[other].event.occurredAt
               && (events[id].event.occurredAt == events[other].event.occurredAt ==>
                     events[id].event.id <= events[other].event.id))
  }

  /** Of the applications that wait: the earliest by creation, and by id. */
  ghost predicate IsEarliest(applications: map<int, Application>, id: int) {
    && id in applications && applications[id].status == ToApply
    && forall other :: other in applications && applications[other].status == ToApply ==>
         && applications[id].createdAt <= applications[other].createdAt
         && (applications[id].createdAt == applications[other].createdAt ==> id <= other)
  }

  datatype WorkflowResult = WorkflowResult(decisions: seq<Decision>, quiescent: bool, pendingRecovery: nat)
  datatype WorkflowError = NoQuiescence

  class DurableKernelWorkflow {
    const deps: Deps
    var store: Store
    var effects: Effects

    constructor (deps: Deps, store: Store, effects: Effects)
      ensures this.deps == deps && this.store == store && this.effects == effects
    {
      this.deps := deps;
      this.store := store;
      this.effects := effects;
    }

    /** The clock. */
    method Now() returns (now: int) {
      now := *;
    }

    /** `enqueue`, the first half of `submit`. */
    method Enqueue(event: Event, now: int)
      modifies this`store
      ensures store == Insert(old(store), event, now)
      ensures store.ledger == old(store).ledger && store.applications == old(store).applications
      ensures if event.id in old(store).events then store.events == old(store).events
              else store.events == old(store).events[event.id := EventRow(event, now, Pending)]
    {
      store := Insert(store, event, now);
    }

    /** `reconcileProcessing`, the first half of `recover`: nothing is left in
        flight, and nothing that was not in flight changes. */
    method ReconcileProcessing()
      modifies this`store
      ensures store == Reconcile(old(store))
      ensures store.ledger == old(store).ledger
      ensures store.events.Keys == old(store).events.Keys && store.applications.Keys == old(store).applications.Keys
      ensures forall id :: id in store.events ==>
                && SameButStatus(store.events[id], old(store).events[id])
                && store.events[id].status != Processing
                && (old(store).events[id].status != Processing ==> store.events[id] == old(store).events[id])
                && (old(store).events[id].status == Processing ==>
                      (store.events[id].status == Processed <==> id in store.ledger))
      ensures forall id :: id in store.applications ==>
                if old(store).applications[id].status == Applying
                then store.applications[id] == old(store).applications[id].(status := ToApply)
                else store.applications[id] == old(store).applications[id]
    {
      store := Reconcile(store);
    }

    method FindFirstToApply() returns (first: Option<int>)
      ensures first == FirstToApply(store.applications)
      ensures first.Some? ==> IsEarliest(store.applications, first.value)
      ensures first.None? <==> forall id :: id in store.applications ==> store.applications[id].status != ToApply
    {
      var todo := store.applications.Keys;
      first := None;
      while todo != {}
        invariant todo <= store.applications.Keys
        invariant first.None? ==>
          forall id :: id in store.applications && store.applications[id].status == ToApply ==> id in todo
        invariant first.Some? ==>
          && first.value in store.applications && store.applications[first.value].status == ToApply
          && forall other :: other in store.applications && other !in todo && other != first.value
               && store.applications[other].status == ToApply
               ==> AppliesBefore(store.applications[first.value], first.value, store.applications[other], other)
      {
        SomeId(todo);
        var id :| id in todo;
        todo := todo - {id};
        var row := store.applications[id];
        if row.status == ToApply {
          if first.None? || AppliesBefore(row, id, store.applications[first.value], first.value) {
            first := Some(id);
          }
        }
      }
      if first.Some? {
        assert IsFirstToApply(store.applications, first.value);
      }
    }

    method ClaimNext(now: int) returns (claimed: Option<int>)
      requires Sound(store)
      modifies this`store
      ensures claimed == NextEvent(old(store).events, now)
      ensures store == if claimed.Some? then Claim(old(store), claimed.value) else old(store)
      ensures claimed.None? <==>
                forall id :: id in old(store).events ==> !(old(store).events[id].status == Pending
                                                           && old(store).events[id].availableAt <= now)
      ensures claimed.Some? ==>
                && IsFirst(old(store).events, now, claimed.value)
                && store.ledger == old(store).ledger && store.applications == old(store).applications
                && store.events == old(store).events[claimed.value :=
                     old(store).events[claimed.value].(status := Processing)]
    {
      var todo := store.events.Keys;
      claimed := None;
      while todo != {}
        invariant store == old(store) && todo <= store.events.Keys
        invariant claimed.None? ==>
          forall id :: id in store.events && Claimable(store.events[id], now) ==> id in todo
        invariant claimed.Some? ==>
          && claimed.value in store.events && Claimable(store.events[claimed.value], now)
          && forall other :: other in store.events && other !in todo && other != claimed.value
               && Claimable(store.events[other], now)
               ==> Earlier(store.events[claimed.value], store.events[other])
      {
        SomeId(todo);
        var id :| id in todo;
        todo := todo - {id};
        if Claimable(store.events[id], now)
           && (claimed.None? || Earlier(store.events[id], store.events[claimed.value]))
        {
          claimed := Some(id);
        }
      }
      assert claimed.None? ==> NextEvent(store.events, now).None?;
      if claimed.Some? {
        assert IsNext(store.events, now, claimed.value);
        assert IsFirst(store.events, now, claimed.value);
        forall other | IsNext(store.events, now, other) ensures other == claimed.value {
          NextIsUnique(store.events, now, other, claimed.value);
        }
        store := Claim(store, claimed.value);
      }
    }

    /** `apply`: mark applying, call Runtime, record its answer. */
    method Apply(id: int, ghost handled: nat) returns (continued: bool)
      requires FirstToApply(store.applications) == Some(id) && handled < MAX_DECISIONS_PER_DRAIN
      modifies this`store, this`effects
      ensures ThreeTicks(deps, State(old(store), old(effects), Head(handled)),
                         State(store, effects, if continued then Head(handled + 1) else Rest))
      ensures id in old(store).applications && id in store.applications
      ensures var row := old(store).applications[id]; var (after, outcome) := deps.apply(old(effects), row.decision);
              && effects == after && continued == outcome.Observed?
              && store.ledger == old(store).ledger
              && store.applications == old(store).applications[id := row.(
                   status := if continued then Applied else Uncertain, attempts := row.attempts + 1,
                   observation := if outcome.Observed? then outcome.observation else row.observation)]
              && (if outcome.Observed? && outcome.observation.Some?
                     && outcome.observation.value.id !in old(store).events
                  then store.events == old(store).events[outcome.observation.value.id :=
                         EventRow(outcome.observation.value, outcome.observation.value.occurredAt, Pending)]
                  else store.events == old(store).events)
    {
      store := MarkApplying(store, id);
      var (after, outcome) := deps.apply(effects, store.applications[id].decision);
      effects := after;
      ghost var called := State(store, effects, Returned(id, outcome, handled + 1));
      assert Advance(deps, Advance(deps, State(old(store), old(effects), Head(handled)), 0), 0) == called;
      match outcome {
        case Threw =>
          store := MarkUncertain(store, id);
          continued := false;
        case Observed(observation) =>
          store := MarkApplied(store, id, observation).value;
          continued := true;
      }
      assert Advance(deps, called, 0) == State(store, effects, if continued then Head(handled + 1) else Rest);
    }

    /** claimNext, buildSnapshot, decide and issue, in one turn. */
    method Decide(now: int, ghost handled: nat) returns (claimed: Option<int>)
      requires Sound(store) && FirstToApply(store.applications).None? && handled < MAX_DECISIONS_PER_DRAIN
      modifies this`store
      ensures claimed == NextEvent(old(store).events, now)
      ensures claimed.None? ==>
                store == old(store)
                && Advance(deps, State(old(store), effects, Head(handled)), now) == State(store, effects, Rest)
      ensures claimed.Some? ==>
                && Advance(deps, State(old(store), effects, Head(handled)), now).phase.Claimed?
                && Advance(deps, Advance(deps, State(old(store), effects, Head(handled)), now), now)
                   == State(store, effects, Head(handled))
                && PendingIds(store.events) == PendingIds(old(store).events) - {claimed.value}
                && claimed.value in PendingIds(old(store).events)
      ensures claimed.Some? ==>
                && IsFirst(old(store).events, now, claimed.value)
                && Decided(old(store), store, claimed.value,
                           deps.decide(old(store).events[claimed.value].event, effects))
    {
      claimed := ClaimNext(now);
      if claimed.Some? {
        var event := store.events[claimed.value].event;
        store := Issue(store, claimed.value, Decision(event.id, deps.decide(event, effects)));
      }
    }

    /** One round of the drain loop. */
    method Round(handled: nat, ghost start: State, ghost moves: seq<Label>)
      returns (decision: Option<Decision>, going: bool, ghost longer: seq<Label>, ghost idleAt: Option<int>)
      requires Sound(store) && handled < MAX_DECISIONS_PER_DRAIN
      requires ByTicks(deps, start, moves, State(store, effects, Head(handled)))
      modifies this`store, this`effects
      ensures Sound(store) && Keeps(old(store), store)
      ensures ByTicks(deps, start, longer,
                State(store, effects, if !going then Rest else Head(handled + if decision.Some? then 1 else 0)))
      ensures decision.Some? ==> Listed(store, decision.value)
      ensures decision.None? && going ==> |PendingIds(store.events)| < |PendingIds(old(store).events)|
      ensures !going ==> Settled(store, idleAt)
    {
      ghost var before := State(store, effects, Head(handled));
      var first := FindFirstToApply();
      idleAt := None;
      match first {
        case Some(id) =>
          decision := Some(store.applications[id].decision);
          going := Apply(id, handled);
          longer := ThreeTicksFollow(deps, start, moves, before,
                                     State(store, effects, if going then Head(handled + 1) else Rest));
          assert !going ==> id in UncertainIds(store.applications);
        case None =>
          decision := None;
          var now := Now();
          var claimed := Decide(now, handled);
          longer := TicksFollow(deps, start, moves, before, now);
          going := claimed.Some?;
          if !going {
            idleAt := Some(now);
          }
      }
    }

    /** One drain without interruption is a run of the machine by ticks alone,
        from the head of the loop back to rest. It terminates: every round
        either handles one more application or takes an event off the inbox. */
    method Drain()
      returns (result: Result<WorkflowResult, WorkflowError>, ghost moves: seq<Label>, ghost idleAt: Option<int>,
               ghost handledNow: seq<Decision>)
      requires Sound(store)
      modifies this`store, this`effects
      ensures ByTicks(deps, State(old(store), old(effects), Head(0)), moves, State(store, effects, Rest))
      ensures Sound(store) && Keeps(old(store), store)
      ensures |handledNow| <= 100 && forall d :: d in handledNow ==> Listed(store, d)
      ensures result == Failure(NoQuiescence) <==> |handledNow| == 100
      ensures result.Success? ==>
                && result.value.decisions == handledNow
                && result.value.quiescent == NothingOpen(store)
                && result.value.pendingRecovery == |UncertainIds(store.applications)|
                && (forall d :: d in result.value.decisions ==> Listed(store, d))
                && Settled(store, idleAt)
    {
      var decisions: seq<Decision> := [];
      var handled := 0;
      var going := true;
      moves := [];
      idleAt := None;
      ghost var start := State(store, effects, Head(0));
      while going && handled < MAX_DECISIONS_PER_DRAIN
        invariant Sound(store) && Keeps(old(store), store)
        invariant 0 <= handled == |decisions| <= MAX_DECISIONS_PER_DRAIN
        invariant ByTicks(deps, start, moves, State(store, effects, if going then Head(handled) else Rest))
        invariant forall d :: d in decisions ==> Listed(store, d)
        invariant !going ==> Settled(store, idleAt)
        decreases going, MAX_DECISIONS_PER_DRAIN - handled, |PendingIds(store.events)|
      {
        var decision;
        ghost var before := store;
        decision, going, moves, idleAt := Round(handled, start, moves);
        RoundKeeps(old(store), before, store, decisions);
        if decision.Some? {
          decisions := decisions + [decision.value];
          handled := handled + 1;
        }
      }
      if going {
        moves := TicksFollow(deps, start, moves, State(store, effects, Head(handled)), 0);
      }
      if handled >= MAX_DECISIONS_PER_DRAIN {
        result := Failure(NoQuiescence);
      } else {
        result := Success(Summary(store, decisions));
      }
      handledNow := decisions;
    }
  }
}
