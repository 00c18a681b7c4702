/**
 The slots of the attempt supervisor: src/execution/attempt-supervisor.ts over
 src/storage/kernel-dispatch-item-repo.ts.

 Dispatch items are kept in listing order and known by their position. Starting
 an attempt does not call back into the supervisor.
 */
module AttemptSupervisor {
  type TaskId(==, !new)

  datatype Status = PendingLaunch | Launching | Running | Settled
  datatype Item = Item(task: TaskId, status: Status)

  /** `listPending(taskId)`. */
  function ListPending(items: seq<Item>, task: TaskId): seq<nat>
    decreases |items|
  {
    if |items| == 0 then []
    else
      var last := |items| - 1;
      ListPending(items[..last], task)
      + if items[last].task == task && items[last].status == PendingLaunch then [last] else []
  }

  lemma {:induction false} ListPendingHolds(items: seq<Item>, task: TaskId)
    ensures forall k :: 0 <= k < |ListPending(items, task)| ==>
              var i := ListPending(items, task)[k];
              i < |items| && items[i].task == task && items[i].status == PendingLaunch
    ensures forall i :: 0 <= i < |items| && items[i].task == task && items[i].status == PendingLaunch ==>
              i in ListPending(items, task)
    ensures forall j, k :: 0 <= j < k < |ListPending(items, task)| ==>
              ListPending(items, task)[j] < ListPending(items, task)[k]
    decreases |items|
  {
    if |items| > 0 {
      ListPendingHolds(items[..|items| - 1], task);
    }
  }

  /** The items a kick looks at: as many as there are free slots. */
  function Candidates(items: seq<Item>, task: TaskId, slots: nat): seq<nat> {
    var pending := ListPending(items, task);
    if |pending| <= slots then pending else pending[..slots]
  }

  /** The candidates that a kick starts: those that are not active already and
      whose claim is not fenced off by a cancelled task or subtask. */
  function Startable(candidates: seq<nat>, active: set<nat>, fenced: set<nat>): set<nat> {
    set i | i in candidates && i !in active && i !in fenced
  }

  /** `after` is `before` with the started attempts of the task. */
  predicate ActiveWith(before: map<nat, TaskId>, after: map<nat, TaskId>, started: set<nat>, task: TaskId) {
    && after.Keys == before.Keys + started
    && (forall i :: i in before ==> after[i] == before[i])
    && (forall i :: i in started ==> after[i] == task)
  }

  /** Pending items of the task that stand before one. */
  function PendingBefore(items: seq<Item>, task: TaskId, i: nat): set<nat>
    requires i <= |items|
  {
    set j | 0 <= j < i && items[j].task == task && items[j].status == PendingLaunch
  }

  /** One of the first pending items of the task, as many as the maximum leaves
      free. */
  predicate IsLookedAt(items: seq<Item>, active: map<nat, TaskId>, maximum: nat, task: TaskId, i: nat) {
    && i < |items| && items[i].task == task && items[i].status == PendingLaunch
    && |active| + |PendingBefore(items, task, i)| < maximum
  }

  /** A kick starts, of the items it looks at, those that are not active already
      and whose claim is not fenced off by a cancelled task or subtask. */
  predicate Starts(items: seq<Item>, active: map<nat, TaskId>, maximum: nat, task: TaskId, fenced: set<nat>, i: nat) {
    IsLookedAt(items, active, maximum, task, i) && i !in active && i !in fenced
  }

  /** What a kick of the task does to the rows and to the active attempts; without
      a context it does nothing. */
  ghost predicate Kicked(items: seq<Item>, active: map<nat, TaskId>, known: bool, maximum: nat, task: TaskId,
                         fenced: set<nat>, itemsAfter: seq<Item>, activeAfter: map<nat, TaskId>)
  {
    && |itemsAfter| == |items|
    && (forall i :: 0 <= i < |items| ==>
          itemsAfter[i] == if known && Starts(items, active, maximum, task, fenced, i)
                           then Item(task, Running) else items[i])
    && (forall i :: i in activeAfter <==> i in active || (known && Starts(items, active, maximum, task, fenced, i)))
    && (forall i :: i in activeAfter ==> activeAfter[i] == if i in active then active[i] else task)
  }

  function FreeSlots(maximum: nat, active: map<nat, TaskId>): nat {
    if maximum > |active| then maximum - |active| else 0
  }

  /** `reconcileLaunching`: launching items without a handle are pending again. */
  function Reconciled(items: seq<Item>, handles: set<nat>): (after: seq<Item>)
    ensures |after| == |items|
    ensures forall i :: 0 <= i < |items| ==>
              after[i] == if items[i].status == Launching && i !in handles then items[i].(status := PendingLaunch)
                          else items[i]
  {
    seq(|items|, i requires 0 <= i < |items| =>
      if items[i].status == Launching && i !in handles then items[i].(status := PendingLaunch) else items[i])
  }

  predicate Ascending(s: seq<nat>) {
    forall j, k :: 0 <= j < k < |s| ==> s[j] < s[k]
  }

  predicate AreStarted(before: seq<Item>, after: seq<Item>, started: set<nat>) {
    |after| == |before|
    && forall i :: 0 <= i < |before| ==>
         after[i] == if i in started then before[i].(status := Running) else before[i]
  }

  datatype Table = Table(items: seq<Item>, active: map<nat, TaskId>)

  /** Distinct pending items. */
  predicate ArePending(items: seq<Item>, candidates: seq<nat>) {
    && Ascending(candidates)
    && forall k :: 0 <= k < |candidates| ==>
         candidates[k] < |items| && items[candidates[k]].status == PendingLaunch
  }

  lemma PendingStays(items: seq<Item>, candidates: seq<nat>)
    requires ArePending(items, candidates) && |candidates| > 0
    ensures ArePending(items, candidates[1..])
    ensures ArePending(items[candidates[0] := items[candidates[0]].(status := Running)], candidates[1..])
  {
  }

  /** The table after the loop of `kick` over the candidates. */
  function Started(table: Table, candidates: seq<nat>, task: TaskId, fenced: set<nat>): (after: Table)
    ensures |after.items| == |table.items|
    decreases |candidates|
  {
    if |candidates| == 0 then table
    else
      var before := Started(table, candidates[..|candidates| - 1], task, fenced);
      var attempt := candidates[|candidates| - 1];
      if attempt in before.active || attempt in fenced || attempt >= |before.items| then before
      else Table(before.items[attempt := before.items[attempt].(status := Running)], before.active[attempt := task])
  }

  lemma StartableStep(candidates: seq<nat>, k: nat, active: set<nat>, fenced: set<nat>)
    requires Ascending(candidates) && k < |candidates|
    ensures candidates[k] !in Startable(candidates[..k], active, fenced)
    ensures Startable(candidates[..k + 1], active, fenced)
         == Startable(candidates[..k], active, fenced)
            + if candidates[k] in active || candidates[k] in fenced then {} else {candidates[k]}
  {
    assert candidates[..k + 1] == candidates[..k] + [candidates[k]];
  }

  lemma ActiveSize(before: map<nat, TaskId>, after: map<nat, TaskId>, started: set<nat>, task: TaskId)
    requires ActiveWith(before, after, started, task) && started !! before.Keys
    ensures |after| == |before| + |started|
  {
    assert |after| == |after.Keys| && |before| == |before.Keys|;
  }

  lemma OneActive(before: map<nat, TaskId>, after: map<nat, TaskId>, started: set<nat>, attempt: nat, task: TaskId)
    requires ActiveWith(before, after, started, task) && attempt !in after
    ensures ActiveWith(before, after[attempt := task], started + {attempt}, task)
  {
    assert attempt !in started;
  }

  lemma OneMarked(before: seq<Item>, after: seq<Item>, started: set<nat>, attempt: nat)
    requires AreStarted(before, after, started) && attempt < |after|
    ensures AreStarted(before, after[attempt := after[attempt].(status := Running)], started + {attempt})
  {
  }

  lemma {:induction false} StartedActive(table: Table, candidates: seq<nat>, task: TaskId, fenced: set<nat>)
    requires ArePending(table.items, candidates)
    ensures ActiveWith(table.active, Started(table, candidates, task, fenced).active,
                       Startable(candidates, table.active.Keys, fenced), task)
    decreases |candidates|
  {
    if |candidates| == 0 {
      assert Startable(candidates, table.active.Keys, fenced) == {};
    } else {
      var n := |candidates| - 1;
      StartedActive(table, candidates[..n], task, fenced);
      StartableStep(candidates, n, table.active.Keys, fenced);
      assert candidates[..n + 1] == candidates;
      var before := Started(table, candidates[..n], task, fenced);
      if candidates[n] !in before.active {
        OneActive(table.active, before.active, Startable(candidates[..n], table.active.Keys, fenced),
                  candidates[n], task);
      }
    }
  }

  lemma {:induction false} StartedItems(table: Table, candidates: seq<nat>, task: TaskId, fenced: set<nat>)
    requires ArePending(table.items, candidates)
    ensures AreStarted(table.items, Started(table, candidates, task, fenced).items,
                       Startable(candidates, table.active.Keys, fenced))
    decreases |candidates|
  {
    if |candidates| == 0 {
      assert Startable(candidates, table.active.Keys, fenced) == {};
    } else {
      var n := |candidates| - 1;
      StartedItems(table, candidates[..n], task, fenced);
      StartedActive(table, candidates[..n], task, fenced);
      StartableStep(candidates, n, table.active.Keys, fenced);
      assert candidates[..n + 1] == candidates;
      OneMarked(table.items, Started(table, candidates[..n], task, fenced).items,
                Startable(candidates[..n], table.active.Keys, fenced), candidates[n]);
    }
  }

  lemma CandidatesHold(items: seq<Item>, task: TaskId, slots: nat)
    ensures Ascending(Candidates(items, task, slots)) && |Candidates(items, task, slots)| <= slots
    ensures forall k :: 0 <= k < |Candidates(items, task, slots)| ==>
              var i := Candidates(items, task, slots)[k];
              i < |items| && items[i].task == task && items[i].status == PendingLaunch
  {
    ListPendingHolds(items, task);
  }

  lemma {:induction false} StartableSize(candidates: seq<nat>, active: set<nat>, fenced: set<nat>)
    requires Ascending(candidates)
    ensures |Startable(candidates, active, fenced)| <= |candidates|
    ensures |Startable(candidates, active, fenced)| == |candidates|
       <==> forall i :: i in candidates ==> i !in active && i !in fenced
    decreases |candidates|
  {
    if |candidates| == 0 {
      assert Startable(candidates, active, fenced) == {};
    } else {
      var n := |candidates| - 1;
      StartableSize(candidates[..n], active, fenced);
      StartableStep(candidates, n, active, fenced);
      assert candidates[..n + 1] == candidates;
      assert forall i :: i in candidates <==> i in candidates[..n] || i == candidates[n];
    }
  }

  lemma {:induction false} ListedBefore(items: seq<Item>, task: TaskId, k: nat)
    requires k < |ListPending(items, task)|
    ensures var i := ListPending(items, task)[k]; i < |items| && |PendingBefore(items, task, i)| == k
    decreases |items|
  {
    var last := |items| - 1;
    var init := items[..last];
    ListPendingHolds(items, task);
    if k < |ListPending(init, task)| {
      ListedBefore(init, task, k);
      var i := ListPending(init, task)[k];
      ListPendingHolds(init, task);
      assert PendingBefore(init, task, i) == PendingBefore(items, task, i);
    } else {
      PendingCount(init, task);
      assert PendingBefore(init, task, last) == PendingBefore(items, task, last);
    }
  }

  lemma {:induction false} PendingCount(items: seq<Item>, task: TaskId)
    ensures |PendingBefore(items, task, |items|)| == |ListPending(items, task)|
    decreases |items|
  {
    if |items| == 0 {
      assert PendingBefore(items, task, 0) == {};
    } else {
      var last := |items| - 1;
      PendingCount(items[..last], task);
      assert PendingBefore(items[..last], task, last) == PendingBefore(items, task, last);
      assert PendingBefore(items, task, |items|)
          == PendingBefore(items, task, last)
             + if items[last].task == task && items[last].status == PendingLaunch then {last} else {};
    }
  }

  /** The items a kick looks at are the first pending ones. */
  lemma CandidatesAreFirst(items: seq<Item>, active: map<nat, TaskId>, maximum: nat, task: TaskId, i: nat)
    ensures i in Candidates(items, task, FreeSlots(maximum, active)) <==> IsLookedAt(items, active, maximum, task, i)
  {
    var pending, slots := ListPending(items, task), FreeSlots(maximum, active);
    var candidates := Candidates(items, task, slots);
    ListPendingHolds(items, task);
    if i in candidates {
      var k :| 0 <= k < |candidates| && candidates[k] == i;
      ListedBefore(items, task, k);
    }
    if IsLookedAt(items, active, maximum, task, i) {
      var k :| 0 <= k < |pending| && pending[k] == i;
      ListedBefore(items, task, k);
      assert candidates[k] == i;
    }
  }

  /** The loop over the candidates does what a kick does. */
  lemma StartedIsKicked(items: seq<Item>, active: map<nat, TaskId>, maximum: nat, task: TaskId, fenced: set<nat>,
                        itemsAfter: seq<Item>, activeAfter: map<nat, TaskId>)
    requires var started := Startable(Candidates(items, task, FreeSlots(maximum, active)), active.Keys, fenced);
             ActiveWith(active, activeAfter, started, task) && AreStarted(items, itemsAfter, started)
    ensures Kicked(items, active, true, maximum, task, fenced, itemsAfter, activeAfter)
  {
    var candidates := Candidates(items, task, FreeSlots(maximum, active));
    var started := Startable(candidates, active.Keys, fenced);
    forall i | true
      ensures i in started <==> Starts(items, active, maximum, task, fenced, i)
    {
      CandidatesAreFirst(items, active, maximum, task, i);
    }
  }

  class Supervisor {
    const maxConcurrentAttempts: nat
    var items: seq<Item>
    var active: map<nat, TaskId>
    var contexts: set<TaskId>
    /** How often each attempt runs right now. */
    ghost var runs: multiset<nat>

    ghost predicate Valid()
      reads this
    {
      && |active| <= maxConcurrentAttempts
      && (forall i :: i in active ==> i < |items| && items[i].task == active[i])
      && runs == multiset(active.Keys)
    }

    constructor (maxConcurrentAttempts: nat)
      requires maxConcurrentAttempts > 0
      ensures Valid() && this.maxConcurrentAttempts == maxConcurrentAttempts
      ensures |items| == 0 && active == map[] && contexts == {}
    {
      this.maxConcurrentAttempts := maxConcurrentAttempts;
      items := [];
      active := map[];
      contexts := {};
      runs := multiset{};
    }

    /** What a kick of the task may start now. */
    function Slots(): nat
      reads this
    {
      FreeSlots(maxConcurrentAttempts, active)
    }

    /** `claimPending` and the synchronous start of `launch`. */
    method Launch(attempt: nat, task: TaskId)
      requires attempt < |items| && items[attempt].status == PendingLaunch && attempt !in active
      requires runs == multiset(active.Keys)
      modifies this
      ensures items == old(items)[attempt := old(items)[attempt].(status := Running)]
      ensures active == old(active)[attempt := task] && contexts == old(contexts)
      ensures runs == multiset(active.Keys) && |active| == |old(active)| + 1
    {
      items := items[attempt := items[attempt].(status := Launching)];
      items := items[attempt := items[attempt].(status := Running)];
      runs := runs[attempt := runs[attempt] + 1];
      active := active[attempt := task];
    }

    /** The loop of `kick`. */
    method StartAll(candidates: seq<nat>, task: TaskId, fenced: set<nat>)
      requires runs == multiset(active.Keys)
      requires ArePending(items, candidates)
      modifies this
      ensures runs == multiset(active.Keys) && contexts == old(contexts)
      ensures Table(items, active) == Started(Table(old(items), old(active)), candidates, task, fenced)
    {
      var k := 0;
      while k < |candidates|
        invariant 0 <= k <= |candidates| && contexts == old(contexts)
        invariant Table(items, active) == Started(Table(old(items), old(active)), candidates[..k], task, fenced)
        invariant ArePending(items, candidates[k..])
        invariant runs == multiset(active.Keys)
      {
        var attempt := candidates[k];
        assert candidates[k..][0] == attempt && candidates[k + 1..] == candidates[k..][1..];
        assert candidates[..k + 1][..k] == candidates[..k];
        PendingStays(items, candidates[k..]);
        k := k + 1;
        if attempt in active { continue; }
        if attempt in fenced { continue; }
        Launch(attempt, task);
      }
      assert candidates[..k] == candidates;
    }

    /** Claims and starts pending items of a task while slots are free. */
    method Kick(task: TaskId, fenced: set<nat>)
      requires Valid()
      modifies this
      ensures Valid() && contexts == old(contexts)
      ensures Kicked(old(items), old(active), task in contexts, maxConcurrentAttempts, task, fenced, items, active)
    {
      if task !in contexts {
        return;
      }
      var candidates := Candidates(items, task, Slots());
      CandidatesHold(items, task, Slots());
      StartableSize(candidates, active.Keys, fenced);
      StartedActive(Table(items, active), candidates, task, fenced);
      StartedItems(Table(items, active), candidates, task, fenced);
      StartAll(candidates, task, fenced);
      ActiveSize(old(active), active, Startable(candidates, old(active).Keys, fenced), task);
      StartedIsKicked(old(items), old(active), maxConcurrentAttempts, task, fenced, items, active);
    }

    /** An attempt's row is marked when its run returns or throws. Its slot stays
        taken until its event is submitted. */
    method Settle(attempt: nat)
      requires Valid() && attempt in active
      modifies this
      ensures Valid() && contexts == old(contexts) && active == old(active)
      ensures attempt < |items| && items == old(items)[attempt := old(items)[attempt].(status := Settled)]
    {
      items := items[attempt := items[attempt].(status := Settled)];
    }

    /** An attempt ends: its slot is freed and its task is kicked. */
    method Finish(attempt: nat, fenced: set<nat>)
      requires Valid() && attempt in active
      modifies this
      ensures Valid() && contexts == old(contexts)
      ensures var task, left := old(active)[attempt], old(active) - {attempt};
              Kicked(old(items), left, task in contexts, maxConcurrentAttempts, task, fenced, items, active)
      ensures attempt < |items|
      ensures old(items)[attempt].status != PendingLaunch ==>
                attempt !in active && items[attempt] == old(items)[attempt]
    {
      var task := active[attempt];
      active := active - {attempt};
      runs := runs - multiset{attempt};
      CandidatesHold(items, task, Slots());
      Kick(task, fenced);
    }

    /** New items of a decision, and a context to run them. */
    method Enqueue(batch: seq<Item>, task: TaskId, fenced: set<nat>)
      requires Valid() && forall k :: 0 <= k < |batch| ==> batch[k] == Item(task, PendingLaunch)
      modifies this
      ensures Valid() && contexts == old(contexts) + {task}
      ensures Kicked(old(items) + batch, old(active), true, maxConcurrentAttempts, task, fenced, items, active)
    {
      items := items + batch;
      contexts := contexts + {task};
      Kick(task, fenced);
    }

    /** Launching items without a sandbox handle are pending again. */
    method Recover(task: TaskId, handles: set<nat>, fenced: set<nat>)
      requires Valid()
      modifies this
      ensures Valid() && contexts == old(contexts) + {task}
      ensures Kicked(Reconciled(old(items), handles), old(active), true, maxConcurrentAttempts, task, fenced,
                     items, active)
    {
      items := Reconciled(items, handles);
      contexts := contexts + {task};
      Kick(task, fenced);
    }

    /** One pass of `drain`: it returns only when the task has neither active
        nor pending items. */
    method DrainPass(task: TaskId, fenced: set<nat>) returns (done: bool)
      requires Valid()
      modifies this
      ensures Valid() && contexts == old(contexts)
      ensures Kicked(old(items), old(active), task in contexts, maxConcurrentAttempts, task, fenced, items, active)
      ensures done <==>
                && (forall i :: i in active ==> active[i] != task)
                && forall i :: 0 <= i < |items| ==> items[i].task != task || items[i].status != PendingLaunch
    {
      Kick(task, fenced);
      ListPendingHolds(items, task);
      var pending := ListPending(items, task);
      done := (forall i :: i in active ==> active[i] != task) && |pending| == 0;
      assert |pending| > 0 ==> pending[0] < |items|;
    }
  }

  lemma KickedActive(items: seq<Item>, active: map<nat, TaskId>, maximum: nat, task: TaskId, fenced: set<nat>,
                     after: seq<Item>, activeAfter: map<nat, TaskId>)
    requires Kicked(items, active, true, maximum, task, fenced, after, activeAfter)
    ensures var candidates := Candidates(items, task, FreeSlots(maximum, active));
            && ActiveWith(active, activeAfter, Startable(candidates, active.Keys, fenced), task)
            && forall i :: i in candidates <==> IsLookedAt(items, active, maximum, task, i)
  {
    var candidates := Candidates(items, task, FreeSlots(maximum, active));
    forall i | true
      ensures i in candidates <==> IsLookedAt(items, active, maximum, task, i)
    {
      CandidatesAreFirst(items, active, maximum, task, i);
    }
  }

  /** How many attempts a kick adds: as many as items that it looks at, unless
      some of them are held back. */
  lemma KickCounts(items: seq<Item>, active: map<nat, TaskId>, maximum: nat, task: TaskId, fenced: set<nat>,
                   after: seq<Item>, activeAfter: map<nat, TaskId>)
    requires Kicked(items, active, true, maximum, task, fenced, after, activeAfter)
    ensures var candidates := Candidates(items, task, FreeSlots(maximum, active));
            && |activeAfter| <= |active| + |candidates|
            && (|activeAfter| == |active| + |candidates| <==>
                  forall i :: i in candidates ==> i !in active && i !in fenced)
  {
    var candidates := Candidates(items, task, FreeSlots(maximum, active));
    var started := Startable(candidates, active.Keys, fenced);
    KickedActive(items, active, maximum, task, fenced, after, activeAfter);
    CandidatesHold(items, task, FreeSlots(maximum, active));
    StartableSize(candidates, active.Keys, fenced);
    ActiveSize(active, activeAfter, started, task);
  }

  /** No item of the task is pending. */
  predicate NonePending(items: seq<Item>, task: TaskId) {
    forall i :: 0 <= i < |items| ==> items[i].task != task || items[i].status != PendingLaunch
  }

  lemma AllLookedAt(items: seq<Item>, active: map<nat, TaskId>, maximum: nat, task: TaskId, fenced: set<nat>,
                    after: seq<Item>, activeAfter: map<nat, TaskId>)
    requires Kicked(items, active, true, maximum, task, fenced, after, activeAfter)
    requires Candidates(items, task, FreeSlots(maximum, active)) == ListPending(items, task)
    requires forall i: nat :: IsLookedAt(items, active, maximum, task, i) ==> i !in active && i !in fenced
    ensures NonePending(after, task)
  {
    ListPendingHolds(items, task);
    KickedActive(items, active, maximum, task, fenced, after, activeAfter);
    forall i | 0 <= i < |after| && items[i].task == task && items[i].status == PendingLaunch
      ensures after[i].status == Running
    {
      assert i in ListPending(items, task);
    }
  }

  /** After a kick either every slot is used or the task has no pending item,
      exactly when none of the items it looked at was held back. */
  lemma KickFillsSlots(items: seq<Item>, active: map<nat, TaskId>, maximum: nat, task: TaskId, fenced: set<nat>,
                       after: seq<Item>, activeAfter: map<nat, TaskId>)
    requires |active| < maximum && Kicked(items, active, true, maximum, task, fenced, after, activeAfter)
    ensures |activeAfter| <= maximum
    ensures |activeAfter| == maximum || NonePending(after, task)
            <==> forall i: nat :: IsLookedAt(items, active, maximum, task, i) ==> i !in active && i !in fenced
  {
    var slots := FreeSlots(maximum, active);
    KickedActive(items, active, maximum, task, fenced, after, activeAfter);
    KickCounts(items, active, maximum, task, fenced, after, activeAfter);
    CandidatesHold(items, task, slots);
    if i: nat :| IsLookedAt(items, active, maximum, task, i) && (i in active || i in fenced) {
      assert after[i] == items[i];
    } else if |ListPending(items, task)| <= slots {
      AllLookedAt(items, active, maximum, task, fenced, after, activeAfter);
    }
  }
}
