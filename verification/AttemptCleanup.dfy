/**
 Cleaning up after attempts: the process records of
 src/execution/worktree-attempt-sandbox-adapter.ts, cancellation recovery of
 src/execution/task-cancellation-coordinator.ts, startup reconciliation of
 src/execution/attempt-sandbox-reconciler.ts, and the release of WorkUnits in
 src/execution/work-unit-claim-service.ts.

 A runtime handle is `worktree:<attempt id>`, so the adapter's records are
 keyed by the attempt.
 */
module AttemptCleanup {
  import opened Prelude

  type AttemptId(==, !new)
  type UnitId(==, !new)
  type TaskId(==, !new)
  type SubtaskId(==, !new)

  datatype ProcessStatus = Created | Running | Paused | Exited
  /** A record of the adapter; without a pid there is nothing to signal. */
  datatype Process = Process(status: ProcessStatus, hasPid: bool)

  datatype SandboxStatus = RowCreated | RowRunning | RowPaused | RowExited | RowLost | RowRemoved

  predicate IsActiveRow(status: SandboxStatus) {
    status == RowCreated || status == RowRunning || status == RowPaused
  }

  datatype ItemStatus = Cancelling | Cancelled | OtherStatus
  datatype Item = Item(task: TaskId, subtask: SubtaskId, unit: Option<UnitId>, status: ItemStatus)

  datatype UnitState = Idle | Starting | Claimed | UnitRunning | Waiting | UnitFailed | HeartbeatLost
  datatype Claim = Claim(task: TaskId, subtask: SubtaskId, attempt: AttemptId)
  datatype WorkUnit = WorkUnit(state: UnitState, claim: Option<Claim>)

  // ------------------------------------------------------------ work units

  /** `release`: a unit that another attempt holds is left alone. */
  function Released(unit: WorkUnit, attempt: AttemptId): WorkUnit {
    if unit.claim.Some? && unit.claim.value.attempt == attempt
    then WorkUnit(if unit.state == UnitFailed || unit.state == HeartbeatLost then unit.state else Idle, None)
    else unit
  }

  /** `releaseReconciledClaim`. */
  function ReleasedReconciled(unit: WorkUnit, claim: Claim): WorkUnit {
    if unit.claim == Some(claim)
    then Released(unit.(state := HeartbeatLost), claim.attempt)
    else Released(unit, claim.attempt)
  }

  /** The unit is free again: no claim, and idle unless it was failed or lost. */
  predicate IsFreed(before: WorkUnit, after: WorkUnit) {
    && after.claim.None?
    && (before.state in {UnitFailed, HeartbeatLost} ==> after.state == before.state)
    && (before.state !in {UnitFailed, HeartbeatLost} ==> after.state == Idle)
  }

  /** A release frees a unit exactly when the attempt still holds it. The
      release of a reconciled claim leaves the unit lost, where the whole claim
      is the one that was reconciled. */
  lemma ReleaseIsGuarded(unit: WorkUnit, claim: Claim)
    ensures var held := unit.claim.Some? && unit.claim.value.attempt == claim.attempt;
            && (if held then IsFreed(unit, Released(unit, claim.attempt)) else Released(unit, claim.attempt) == unit)
            && (if unit.claim == Some(claim) then ReleasedReconciled(unit, claim) == WorkUnit(HeartbeatLost, None)
                else if held then IsFreed(unit, ReleasedReconciled(unit, claim))
                else ReleasedReconciled(unit, claim) == unit)
  {
  }

  // --------------------------------------------------------------- adapter

  type Processes = map<AttemptId, Process>

  predicate NeedsSignal(p: Process) {
    p.hasPid && (p.status == Running || p.status == Paused)
  }

  /** A process that can be neither stopped nor removed: it runs or is paused,
      and there is no pid to signal or the signal is refused. */
  predicate IsStuck(p: Process, refused: bool) {
    (p.status == Running || p.status == Paused) && (!p.hasPid || refused)
  }

  /** A managed process of an active row that cannot be checkpointed, stopped or
      removed. */
  predicate Fails(managed: Processes, a: AttemptId, refuses: set<AttemptId>, unsaved: set<AttemptId>) {
    a in managed && (a in unsaved || IsStuck(managed[a], a in refuses))
  }

  predicate NoneFails(managed: Processes, attempts: set<AttemptId>, refuses: set<AttemptId>, unsaved: set<AttemptId>) {
    forall a :: a in attempts ==> !Fails(managed, a, refuses, unsaved)
  }

  lemma PickOne(s: set<AttemptId>)
    requires s != {}
    ensures exists a :: a in s
  {
    if forall a: AttemptId :: a !in s {
      EmptyWithoutMembers(s);
    }
  }

  type Rows = map<AttemptId, SandboxStatus>
  type Items = map<AttemptId, Item>

  /** The sandbox of the attempt is gone for certain: there is no record of
      one, or its process is known and exited, or exits when it is stopped. */
  predicate Confirmed(processes: Processes, rows: Rows, a: AttemptId, refuses: set<AttemptId>) {
    a !in rows
    || (a in processes
        && (processes[a].status == Exited
            || (IsActiveRow(rows[a]) && NeedsSignal(processes[a]) && a !in refuses)))
  }

  /** A cancelling item whose sandbox was never recorded, or has a process that
      has exited, or runs under an active row and can be stopped. */
  predicate IsGone(item: Item, row: Option<SandboxStatus>, process: Option<Process>, refused: bool) {
    && item.status == Cancelling
    && (row.None?
        || (process.Some?
            && (process.value.status == Exited
                || (row.value in {RowCreated, RowRunning, RowPaused} && process.value.hasPid
                    && process.value.status in {Running, Paused} && !refused))))
  }

  predicate HeldByGone(unit: WorkUnit, u: UnitId, items: Items, rows: Rows, processes: Processes,
                       refuses: set<AttemptId>)
  {
    && unit.claim.Some? && unit.claim.value.attempt in items
    && var a := unit.claim.value.attempt;
       items[a].unit == Some(u) && IsGone(items[a], Lookup(rows, a), Lookup(processes, a), a in refuses)
  }

  lemma SettleableIsGone(processes: Processes, rows: Rows, items: Items, refuses: set<AttemptId>, a: AttemptId)
    requires a in items
    ensures a in Settleable(processes, rows, items, refuses)
            <==> IsGone(items[a], Lookup(rows, a), Lookup(processes, a), a in refuses)
  {
  }

  /** The cancelling items that recovery can settle. */
  function Settleable(processes: Processes, rows: Rows, items: Items, refuses: set<AttemptId>): set<AttemptId> {
    set a | a in items && items[a].status == Cancelling && Confirmed(processes, rows, a, refuses)
  }

  function WithCancelled(items: Items, done: set<AttemptId>): Items {
    map a | a in items :: if a in done then items[a].(status := Cancelled) else items[a]
  }

  /** Removed for the done ones that had a sandbox, as before for the others. */
  predicate RowsRemoved(before: Rows, after: Rows, done: set<AttemptId>) {
    after.Keys == before.Keys
    && forall a :: a in before ==> after[a] == if a in done then RowRemoved else before[a]
  }

  predicate HeldBy(unit: WorkUnit, u: UnitId, items: Items, done: set<AttemptId>) {
    unit.claim.Some? && unit.claim.value.attempt in done && unit.claim.value.attempt in items
    && items[unit.claim.value.attempt].unit == Some(u)
  }

  /** The units that done attempts held are released, all others unchanged. */
  predicate UnitsFreed(before: map<UnitId, WorkUnit>, after: map<UnitId, WorkUnit>,
                       items: Items, done: set<AttemptId>)
  {
    after.Keys == before.Keys
    && forall u :: u in before ==>
         after[u] == if HeldBy(before[u], u, items, done)
                     then Released(before[u], before[u].claim.value.attempt) else before[u]
  }

  lemma UnitFreed(before: map<UnitId, WorkUnit>, after: map<UnitId, WorkUnit>,
                  items: Items, done: set<AttemptId>, a: AttemptId)
    requires UnitsFreed(before, after, items, done) && a in items && a !in done
    ensures UnitsFreed(before, ReleasedUnits(after, items[a].unit, a), items, done + {a})
  {
  }

  /** The rows that recovery changes. */
  datatype Facts = Facts(rows: Rows, items: Items, leases: set<AttemptId>, units: map<UnitId, WorkUnit>)

  /** Releasing one attempt whose sandbox is gone. */
  function ItemReleased(f: Facts, a: AttemptId): Facts
    requires a in f.items
  {
    Facts(if a in f.rows then f.rows[a := RowRemoved] else f.rows,
          f.items[a := f.items[a].(status := Cancelled)],
          f.leases - {a},
          ReleasedUnits(f.units, f.items[a].unit, a))
  }

  /** Exactly the done attempts are released. */
  predicate Recovered(before: Facts, after: Facts, done: set<AttemptId>) {
    && after.items == WithCancelled(before.items, done)
    && after.leases == before.leases - done
    && RowsRemoved(before.rows, after.rows, done)
    && UnitsFreed(before.units, after.units, before.items, done)
  }

  lemma NothingRecovered(f: Facts)
    ensures Recovered(f, f, {})
  {
    assert f.items == WithCancelled(f.items, {});
  }

  lemma OneRecovered(before: Facts, after: Facts, done: set<AttemptId>, a: AttemptId)
    requires Recovered(before, after, done) && a in before.items && a !in done
    ensures Recovered(before, ItemReleased(after, a), done + {a})
  {
    assert after.items[a] == before.items[a];
    UnitFreed(before.units, after.units, before.items, done, a);
    var last := ItemReleased(after, a);
    assert last.items == WithCancelled(before.items, done + {a});
  }

  /** What recovery of other attempts leaves of the processes of these. */
  predicate Untouched(before: Processes, after: Processes, attempts: set<AttemptId>) {
    forall a :: a in attempts ==> (a in after <==> a in before) && (a in before ==> after[a] == before[a])
  }

  predicate SameBut(before: Processes, after: Processes, a: AttemptId) {
    && before.Keys + {a} == after.Keys + {a}
    && forall b :: b in before && b != a ==> after[b] == before[b]
  }

  lemma UntouchedStays(first: Processes, before: Processes, after: Processes, a: AttemptId, rest: set<AttemptId>)
    requires Untouched(first, before, rest) && SameBut(before, after, a)
    ensures Untouched(first, after, rest - {a})
  {
    forall b | b in rest - {a}
      ensures b in after <==> b in before
    {
      assert b in before.Keys + {a} <==> b in after.Keys + {a};
    }
  }

  /** The first loop of `reconcile` with these processes still to do. */
  ghost predicate Discarding(managed: Processes, active: set<AttemptId>, processes: Processes,
                             orphans: set<AttemptId>, rest: set<AttemptId>)
  {
    && rest <= managed.Keys - active && orphans == (managed.Keys - active) - rest
    && processes.Keys == managed.Keys - orphans
    && Untouched(managed, processes, managed.Keys - orphans)
  }

  lemma DiscardingStep(managed: Processes, active: set<AttemptId>, before: Processes, after: Processes,
                       orphans: set<AttemptId>, rest: set<AttemptId>, a: AttemptId)
    requires Discarding(managed, active, before, orphans, rest) && a in rest && SameBut(before, after, a)
    ensures Untouched(managed, after, active)
    ensures after.Keys == before.Keys ==> after.Keys <= managed.Keys
    ensures after.Keys == before.Keys - {a} ==> Discarding(managed, active, after, orphans + {a}, rest - {a})
  {
    UntouchedStays(managed, before, after, a, managed.Keys - orphans);
    UntouchedStays(managed, before, after, a, active);
  }

  /** The second loop of `reconcile` with these rows still to do. */
  ghost predicate Settling(managed: Processes, active: set<AttemptId>, start: Rows, processes: Processes, rows: Rows,
                           lost: set<AttemptId>, exited: set<AttemptId>, rest: set<AttemptId>)
  {
    && rest <= active <= start.Keys && rows.Keys == start.Keys
    && processes.Keys == managed.Keys * rest
    && Untouched(managed, processes, rest)
    && (forall a :: a in start ==>
          rows[a] == if a in active - rest then if a in managed then RowRemoved else RowLost else start[a])
    && exited == (set a | a in active - rest && a in managed && managed[a].status == Exited)
    && lost == (active - rest) - exited
  }

  /** Only active rows change, to exited, or to what their process calls for. */
  predicate OnlySettled(managed: Processes, active: set<AttemptId>, before: Rows, after: Rows) {
    after.Keys == before.Keys
    && forall a :: a in before && after[a] != before[a] ==>
         a in active && (after[a] == RowExited || after[a] == if a in managed then RowRemoved else RowLost)
  }

  lemma SettledSoFar(managed: Processes, active: set<AttemptId>, start: Rows, processes: Processes, rows: Rows,
                     lost: set<AttemptId>, exited: set<AttemptId>, rest: set<AttemptId>)
    requires Settling(managed, active, start, processes, rows, lost, exited, rest)
    ensures OnlySettled(managed, active, start, rows)
    ensures forall a :: a in rest ==> OnlySettled(managed, active, start, rows[a := RowExited])
    ensures forall a :: a in rest ==> rows[a] == start[a]
    ensures rest == {} ==> processes == map[] && active - rest == active
  {
  }

  lemma SettlingStep(managed: Processes, active: set<AttemptId>, start: Rows, processes: Processes, rows: Rows,
                     lost: set<AttemptId>, exited: set<AttemptId>, rest: set<AttemptId>, a: AttemptId)
    requires Settling(managed, active, start, processes, rows, lost, exited, rest) && a in rest
    ensures a in rows && (a in processes <==> a in managed)
    ensures var hasExited := a in managed && managed[a].status == Exited;
            Settling(managed, active, start, processes - {a},
                     rows[a := if a in managed then RowRemoved else RowLost],
                     if hasExited then lost else lost + {a}, if hasExited then exited + {a} else exited, rest - {a})
  {
    assert active - (rest - {a}) == (active - rest) + {a};
  }

  /** The loop of `recover` with these items still to do. */
  ghost predicate Recovering(first: Processes, start: Facts, processes: Processes, now: Facts,
                             all: set<AttemptId>, rest: set<AttemptId>, refuses: set<AttemptId>)
  {
    && all == Settleable(first, start.rows, start.items, refuses)
    && Recovered(start, now, all - rest)
    && Untouched(first, processes, rest)
    && rest <= start.items.Keys
    && forall a :: a in rest ==> start.items[a].status == Cancelling
  }

  lemma RecoveringStep(first: Processes, start: Facts, processes: Processes, now: Facts,
                       all: set<AttemptId>, rest: set<AttemptId>, refuses: set<AttemptId>,
                       a: AttemptId, after: Processes, next: Facts)
    requires Recovering(first, start, processes, now, all, rest, refuses) && a in rest
    requires SameBut(processes, after, a)
    requires a in now.items
    requires next == if Confirmed(processes, now.rows, a, refuses) then ItemReleased(now, a) else now
    ensures Recovering(first, start, after, next, all, rest - {a}, refuses)
  {
    var done := all - rest;
    assert now.rows.Keys == start.rows.Keys && (a in start.rows ==> now.rows[a] == start.rows[a]);
    assert a in all <==> Confirmed(first, start.rows, a, refuses);
    if a in all {
      OneRecovered(start, now, done, a);
      assert all - (rest - {a}) == done + {a};
    } else {
      assert all - (rest - {a}) == done;
    }
    UntouchedStays(first, processes, after, a, rest);
  }

  class Runtime {
    var processes: Processes
    var rows: Rows
    var items: Items
    var leases: set<AttemptId>
    var units: map<UnitId, WorkUnit>

    /** A sandbox on record as removed has no process record. */
    predicate Valid()
      reads this
    {
      forall a :: a in rows && rows[a] == RowRemoved ==> a !in processes
    }

    constructor ()
      ensures Valid() && processes == map[] && rows == map[] && items == map[] && leases == {} && units == map[]
    {
      processes, rows, items, leases, units := map[], map[], map[], {}, map[];
    }

    /** `create` for a new attempt, and its row. */
    method Create(a: AttemptId)
      requires Valid() && a !in rows
      modifies this`processes, this`rows
      ensures Valid() && processes == old(processes)[a := Process(Created, false)]
      ensures rows == old(rows)[a := RowCreated]
    {
      processes := processes[a := Process(Created, false)];
      rows := rows[a := RowCreated];
    }

    /** `start`; a child that could not be spawned has no pid. */
    method Start(a: AttemptId, spawned: bool) returns (threw: bool)
      requires Valid()
      modifies this`processes
      ensures Valid() && threw == (a !in old(processes))
      ensures processes == if threw || old(processes)[a].status != Created then old(processes)
                           else old(processes)[a := Process(Running, spawned)]
    {
      if a !in processes { return true; }
      if processes[a].status != Created { return false; }
      processes := processes[a := Process(Running, spawned)];
      return false;
    }

    /** `pause` and `resume`: nothing happens outside the matching state, and a
        signal that is refused, as all are on Windows, throws. */
    method Signal(a: AttemptId, pause: bool, refuses: set<AttemptId>) returns (threw: bool)
      requires Valid()
      modifies this`processes
      ensures Valid()
      ensures threw <==>
                || a !in old(processes)
                || (old(processes)[a].hasPid && old(processes)[a].status == (if pause then Running else Paused)
                    && a in refuses)
      ensures processes ==
                if a in old(processes) && old(processes)[a].hasPid && a !in refuses
                   && old(processes)[a].status == (if pause then Running else Paused)
                then old(processes)[a := Process(if pause then Paused else Running, true)] else old(processes)
    {
      if a !in processes { return true; }
      var expected := if pause then Running else Paused;
      if !processes[a].hasPid || processes[a].status != expected { return false; }
      if a in refuses { return true; }
      processes := processes[a := Process(if pause then Paused else Running, true)];
      return false;
    }

    /** The child exits by itself; an exited record never changes again. */
    method Finish(a: AttemptId)
      requires Valid() && a in processes
      modifies this`processes
      ensures Valid() && processes == old(processes)[a := old(processes)[a].(status := Exited)]
    {
      if processes[a].status == Exited {
        assert processes[a].(status := Exited) == processes[a];
        return;
      }
      processes := processes[a := processes[a].(status := Exited)];
    }

    method Stop(a: AttemptId, refuses: set<AttemptId>) returns (threw: bool)
      modifies this`processes
      ensures threw <==>
                || a !in old(processes)
                || (old(processes)[a].hasPid && a in refuses
                    && (old(processes)[a].status == Running || old(processes)[a].status == Paused))
      ensures processes ==
                if a in old(processes) && old(processes)[a].hasPid && a !in refuses
                   && (old(processes)[a].status == Running || old(processes)[a].status == Paused)
                then old(processes)[a := Process(Exited, true)] else old(processes)
    {
      if a !in processes { return true; }
      var p := processes[a];
      if !p.hasPid || p.status == Created || p.status == Exited { return false; }
      if a in refuses { return true; }
      processes := processes[a := p.(status := Exited)];
      return false;
    }

    method Remove(a: AttemptId) returns (threw: bool)
      modifies this`processes
      ensures threw <==>
                || a !in old(processes)
                || old(processes)[a].status == Running || old(processes)[a].status == Paused
      ensures processes == if threw then old(processes) else old(processes) - {a}
    {
      if a !in processes { return true; }
      if processes[a].status != Created && processes[a].status != Exited { return true; }
      processes := processes - {a};
      return false;
    }

    // -------------------------------------------------------- cancellation

    function Known(): Facts
      reads this
    {
      Facts(rows, items, leases, units)
    }

    /** One cancelling item; false is a `continue`. */
    method RecoverItem(a: AttemptId, refuses: set<AttemptId>) returns (released: bool)
      requires Valid() && a in items
      modifies this
      ensures Valid() && released == Confirmed(old(processes), old(rows), a, refuses)
      ensures Known() == if released then ItemReleased(old(Known()), a) else old(Known())
      ensures released <==>
                || a !in old(rows)
                || (a in old(processes)
                    && (old(processes)[a].status == Exited
                        || (old(rows)[a] in {RowCreated, RowRunning, RowPaused} && a !in refuses
                            && old(processes)[a].hasPid
                            && (old(processes)[a].status == Running || old(processes)[a].status == Paused))))
      ensures released && a in old(rows) ==> a !in processes
      ensures SameBut(old(processes), processes, a)
    {
      if a in rows {
        if IsActiveRow(rows[a]) {
          var stopThrew := Stop(a, refuses);
          if stopThrew { return false; }
        }
        if a in processes && processes[a].status != Exited { return false; }
        var removeThrew := Remove(a);
        if removeThrew { return false; }
        rows := rows[a := RowRemoved];
      }
      leases := leases - {a};
      units := ReleasedUnits(units, items[a].unit, a);
      items := items[a := items[a].(status := Cancelled)];
      return true;
    }

    /** All cancelling items: exactly those whose sandbox is gone for certain
        lose their leases and WorkUnits and become cancelled. */
    method Recover(refuses: set<AttemptId>)
      requires Valid()
      modifies this
      ensures Valid()
      ensures var done := Settleable(old(processes), old(rows), old(items), refuses);
              && Recovered(old(Known()), Known(), done)
              && forall a :: a in done && a in old(rows) ==> a !in processes
      ensures items.Keys == old(items).Keys && rows.Keys == old(rows).Keys && units.Keys == old(units).Keys
      ensures forall a :: a in old(items) ==>
                if IsGone(old(items)[a], Lookup(old(rows), a), Lookup(old(processes), a), a in refuses)
                then items[a] == old(items)[a].(status := Cancelled) && a !in leases
                     && (a in rows ==> rows[a] == RowRemoved)
                else items[a] == old(items)[a] && (a in leases <==> a in old(leases))
                     && (a in rows ==> rows[a] == old(rows)[a])
      ensures forall u :: u in old(units) ==>
                if HeldByGone(old(units)[u], u, old(items), old(rows), old(processes), refuses)
                then IsFreed(old(units)[u], units[u]) else units[u] == old(units)[u]
    {
      var rest: set<AttemptId> := set a | a in items && items[a].status == Cancelling;
      ghost var first, start := processes, Known();
      ghost var all := Settleable(processes, rows, items, refuses);
      NothingRecovered(start);
      assert all - rest == {};
      while rest != {}
        invariant Valid() && Recovering(first, start, processes, Known(), all, rest, refuses)
        decreases |rest|
      {
        PickOne(rest);
        var a :| a in rest;
        ghost var before, now := processes, Known();
        var released := RecoverItem(a, refuses);
        RecoveringStep(first, start, before, now, all, rest, refuses, a, processes, Known());
        rest := rest - {a};
      }
      assert all - rest == all;
      forall a | a in start.items
        ensures a in all <==> IsGone(start.items[a], Lookup(start.rows, a), Lookup(first, a), a in refuses)
      {
        SettleableIsGone(first, start.rows, start.items, refuses, a);
      }
    }

    // ---------------------------------------------------- reconciliation

    /** Stops and removes one process; true is an exception of either. */
    method Discard(a: AttemptId, refuses: set<AttemptId>) returns (threw: bool)
      requires Valid()
      modifies this`processes
      ensures Valid()
      ensures threw <==> a !in old(processes) || IsStuck(old(processes)[a], a in refuses)
      ensures !threw ==> processes == old(processes) - {a} && a in old(processes)
      ensures threw ==> processes.Keys == old(processes).Keys
      ensures SameBut(old(processes), processes, a)
    {
      threw := Stop(a, refuses);
      if !threw { threw := Remove(a); }
    }

    /** Processes that no active row knows. */
    method DiscardOrphans(managed: Processes, active: set<AttemptId>, refuses: set<AttemptId>)
      returns (threw: bool, orphans: set<AttemptId>)
      requires Valid() && processes == managed
      modifies this`processes
      ensures Valid() && processes.Keys <= managed.Keys
      ensures Untouched(managed, processes, active)
      ensures !threw ==> orphans == managed.Keys - active && processes.Keys == managed.Keys * active
      ensures threw <==> exists a :: a in managed && a !in active && IsStuck(managed[a], a in refuses)
    {
      orphans := {};
      var rest := managed.Keys - active;
      while rest != {}
        invariant Valid() && Discarding(managed, active, processes, orphans, rest)
        invariant forall a :: a in orphans ==> !IsStuck(managed[a], a in refuses)
        decreases |rest|
      {
        PickOne(rest);
        var a :| a in rest;
        ghost var before := processes;
        var discardThrew := Discard(a, refuses);
        DiscardingStep(managed, active, before, processes, orphans, rest, a);
        if discardThrew {
          return true, orphans;
        }
        orphans := orphans + {a};
        rest := rest - {a};
      }
      return false, orphans;
    }

    /** One active row; true is an exception. */
    method SettleOne(a: AttemptId, runtime: Option<Process>, refuses: set<AttemptId>, unsaved: set<AttemptId>)
      returns (threw: bool)
      requires Valid() && a in rows && (runtime.None? ==> a !in processes)
      modifies this`processes, this`rows
      ensures Valid()
      ensures !threw ==>
                && rows == old(rows)[a := if runtime.Some? then RowRemoved else RowLost]
                && processes == old(processes) - {a}
      ensures threw ==> rows == old(rows) || rows == old(rows)[a := RowExited]
      ensures Lookup(old(processes), a) == runtime ==> (threw <==> Fails(old(processes), a, refuses, unsaved))
    {
      if runtime.None? {
        rows := rows[a := RowLost];
        assert processes - {a} == processes;
        return false;
      }
      if a in unsaved { return true; }
      if runtime.value.status == Exited { rows := rows[a := RowExited]; }
      threw := Discard(a, refuses);
      if threw { return; }
      rows := rows[a := RowRemoved];
    }

    /** The rows that were active against what the adapter managed. */
    method SettleActive(managed: Processes, active: set<AttemptId>, refuses: set<AttemptId>, unsaved: set<AttemptId>)
      returns (threw: bool, lost: set<AttemptId>, exited: set<AttemptId>)
      requires Valid() && active <= rows.Keys && processes.Keys == managed.Keys * active
      requires Untouched(managed, processes, active)
      modifies this`processes, this`rows
      ensures Valid() && rows.Keys == old(rows).Keys
      ensures OnlySettled(managed, active, old(rows), rows)
      ensures !threw ==>
                && processes == map[]
                && exited == (set a | a in active && a in managed && managed[a].status == Exited)
                && lost == active - exited
                && forall a :: a in active ==> rows[a] == if a in managed then RowRemoved else RowLost
      ensures threw <==> !NoneFails(managed, active, refuses, unsaved)
    {
      lost, exited := {}, {};
      var rest := active;
      ghost var start := rows;
      while rest != {}
        invariant Valid() && Settling(managed, active, start, processes, rows, lost, exited, rest)
        invariant NoneFails(managed, active - rest, refuses, unsaved)
        decreases rest
      {
        PickOne(rest);
        var a :| a in rest;
        SettledSoFar(managed, active, start, processes, rows, lost, exited, rest);
        SettlingStep(managed, active, start, processes, rows, lost, exited, rest, a);
        var runtime := if a in managed then Some(managed[a]) else None;
        assert Lookup(processes, a) == runtime;
        if runtime.Some? && runtime.value.status == Exited {
          exited := exited + {a};
        } else {
          lost := lost + {a};
        }
        assert Fails(processes, a, refuses, unsaved) <==> Fails(managed, a, refuses, unsaved);
        threw := SettleOne(a, runtime, refuses, unsaved);
        if threw { return; }
        rest := rest - {a};
      }
      SettledSoFar(managed, active, start, processes, rows, lost, exited, rest);
      threw := false;
    }

    /** The rows that are active at startup against the processes the adapter
        manages; `unsaved` are those whose checkpoint throws. */
    method Reconcile(refuses: set<AttemptId>, unsaved: set<AttemptId>)
      returns (threw: bool, orphans: set<AttemptId>, lost: set<AttemptId>, exited: set<AttemptId>)
      requires Valid()
      modifies this`processes, this`rows
      ensures Valid() && rows.Keys == old(rows).Keys
      ensures threw <==>
                exists a :: a in old(processes)
                  && (IsStuck(old(processes)[a], a in refuses)
                      || (a in unsaved && a in old(rows) && old(rows)[a] in {RowCreated, RowRunning, RowPaused}))
      ensures OnlySettled(old(processes), set a | a in old(rows) && IsActiveRow(old(rows)[a]), old(rows), rows)
      ensures forall a :: a in rows && rows[a] == RowRemoved && old(rows)[a] != RowRemoved ==>
                a in old(processes) && a !in processes
      ensures !threw ==>
                var active := set a | a in old(rows) && IsActiveRow(old(rows)[a]);
                && processes == map[]
                && orphans == old(processes).Keys - active
                && exited == (set a | a in active && a in old(processes) && old(processes)[a].status == Exited)
                && lost == active - exited
                && forall a :: a in active ==> rows[a] == if a in old(processes) then RowRemoved else RowLost
    {
      var managed := processes;
      var active := set a | a in rows && IsActiveRow(rows[a]);
      lost, exited := {}, {};
      threw, orphans := DiscardOrphans(managed, active, refuses);
      if threw { return; }
      threw, lost, exited := SettleActive(managed, active, refuses, unsaved);
    }
  }

  function ReleasedUnits(units: map<UnitId, WorkUnit>, unit: Option<UnitId>, a: AttemptId): map<UnitId, WorkUnit> {
    if unit.Some? && unit.value in units
    then units[unit.value := Released(units[unit.value], a)]
    else units
  }

  /** After a restart the adapter knows no process, so recovery settles exactly
      the cancelling attempts that never had a sandbox on record. */
  lemma RestartSettlesOnlyUnrecorded(rows: Rows, items: Items, refuses: set<AttemptId>)
    ensures Settleable(map[], rows, items, refuses)
         == set a | a in items && items[a].status == Cancelling && a !in rows
  {
    var settled := Settleable(map[], rows, items, refuses);
    assert forall a :: a in settled ==> a !in rows;
  }
}
