/**
 The promise chain that serialises repository operations:
 `withRepositoryOperation` of src/execution/managed-git-workspace.ts.

 A call is known by its arrival number. Its promise is settled once the promise
 it waits for is settled and its own turn is released; whether the operation
 fails makes no difference to that.
 */
module RepositoryLock {
  import opened Prelude

  type Path(==, !new)

  datatype Stage = Waiting | Running | Finished(failed: bool)
  datatype Call = Call(path: Path, previous: Option<nat>, stage: Stage)

  /** `previous` is an earlier call. */
  predicate Ordered(calls: seq<Call>) {
    forall c :: 0 <= c < |calls| && calls[c].previous.Some? ==> calls[c].previous.value < c
  }

  /** The promise that call `c` stored in the map is settled. */
  predicate Settled(calls: seq<Call>, c: nat)
    requires Ordered(calls) && c < |calls|
    decreases c
  {
    calls[c].stage.Finished? && (calls[c].previous.None? || Settled(calls, calls[c].previous.value))
  }

  /** The calls of a path that are queued or running, in arrival order. */
  function Queue(calls: seq<Call>, path: Path): seq<nat>
    decreases |calls|
  {
    if |calls| == 0 then []
    else
      var c := |calls| - 1;
      Queue(calls[..c], path)
      + if calls[c].path == path && !calls[c].stage.Finished? then [c] else []
  }

  predicate IsLastOf(calls: seq<Call>, path: Path, c: nat, before: nat) {
    && c < before <= |calls| && calls[c].path == path
    && forall d :: c < d < before ==> calls[d].path != path
  }

  /** A call waits for the last call before it on its path; when it waits for
      none, all calls before it on its path are finished. */
  predicate Chained(calls: seq<Call>) {
    forall c :: 0 <= c < |calls| ==>
      match calls[c].previous
      case Some(p) => IsLastOf(calls, calls[c].path, p, c)
      case None => forall d :: 0 <= d < c && calls[d].path == calls[c].path ==> calls[d].stage.Finished?
  }

  /** A call runs only after the promise it waits for is settled. */
  predicate Awaited(calls: seq<Call>)
    requires Ordered(calls)
  {
    forall c :: 0 <= c < |calls| && !calls[c].stage.Waiting? ==>
      calls[c].previous.None? || Settled(calls, calls[c].previous.value)
  }

  /** The map holds the last call of exactly the paths that are in use. */
  predicate Mapped(calls: seq<Call>, operations: map<Path, nat>) {
    && (forall path :: path in operations ==> IsLastOf(calls, path, operations[path], |calls|))
    && (forall path :: path in operations ==> !calls[operations[path]].stage.Finished?)
    && (forall c :: 0 <= c < |calls| && !calls[c].stage.Finished? ==> calls[c].path in operations)
  }

  predicate Valid(calls: seq<Call>, operations: map<Path, nat>) {
    Ordered(calls) && Chained(calls) && Awaited(calls) && Mapped(calls, operations)
  }

  // ------------------------------------------------------------- meaning

  /** A settled promise means that its call and all before it on its path are
      finished. */
  lemma {:induction false} SettledMeansFinished(calls: seq<Call>, c: nat, d: nat)
    requires Ordered(calls) && Chained(calls) && c < |calls| && d <= c && calls[d].path == calls[c].path
    requires Settled(calls, c)
    ensures calls[d].stage.Finished?
    decreases c
  {
    if d < c && calls[c].previous.Some? {
      SettledMeansFinished(calls, calls[c].previous.value, d);
    }
  }

  lemma {:induction false} FinishedMeansSettled(calls: seq<Call>, c: nat)
    requires Ordered(calls) && Chained(calls) && c < |calls|
    requires forall d :: 0 <= d <= c && calls[d].path == calls[c].path ==> calls[d].stage.Finished?
    ensures Settled(calls, c)
    decreases c
  {
    if calls[c].previous.Some? {
      FinishedMeansSettled(calls, calls[c].previous.value);
    }
  }

  /** A call that started has only finished calls before it on its path. */
  lemma StartedInOrder(calls: seq<Call>, operations: map<Path, nat>, c: nat, d: nat)
    requires Valid(calls, operations) && d < c < |calls| && calls[d].path == calls[c].path
    requires !calls[c].stage.Waiting?
    ensures calls[d].stage.Finished?
  {
    if calls[c].previous.Some? {
      SettledMeansFinished(calls, calls[c].previous.value, d);
    }
  }

  /** At most one operation runs on a repository. */
  lemma MutualExclusion(calls: seq<Call>, operations: map<Path, nat>, c: nat, d: nat)
    requires Valid(calls, operations) && c < |calls| && d < |calls| && calls[c].path == calls[d].path
    requires calls[c].stage.Running? && calls[d].stage.Running?
    ensures c == d
  {
    if c < d {
      StartedInOrder(calls, operations, d, c);
    } else if d < c {
      StartedInOrder(calls, operations, c, d);
    }
  }

  lemma {:induction false} QueueHolds(calls: seq<Call>, path: Path)
    ensures forall k :: 0 <= k < |Queue(calls, path)| ==>
              var c := Queue(calls, path)[k];
              c < |calls| && calls[c].path == path && !calls[c].stage.Finished?
    ensures forall c :: 0 <= c < |calls| && calls[c].path == path && !calls[c].stage.Finished? ==>
              c in Queue(calls, path)
    ensures forall j, k :: 0 <= j < k < |Queue(calls, path)| ==> Queue(calls, path)[j] < Queue(calls, path)[k]
    decreases |calls|
  {
    if |calls| > 0 {
      QueueHolds(calls[..|calls| - 1], path);
    }
  }

  /** The head of the queue runs or may start, the others wait. */
  lemma OnlyHeadProceeds(calls: seq<Call>, operations: map<Path, nat>, path: Path, k: nat)
    requires Valid(calls, operations) && k < |Queue(calls, path)|
    ensures var c := Queue(calls, path)[k];
            && c < |calls|
            && (k == 0 ==> calls[c].previous.None? || Settled(calls, calls[c].previous.value))
            && (k > 0 ==> calls[c].stage.Waiting?
                          && calls[c].previous.Some? && !Settled(calls, calls[c].previous.value))
  {
    QueueHolds(calls, path);
    var queue := Queue(calls, path);
    var c := queue[k];
    if k == 0 {
      if calls[c].previous.Some? {
        var p := calls[c].previous.value;
        forall d | 0 <= d <= p && calls[d].path == calls[p].path
          ensures calls[d].stage.Finished?
        {
          assert d < queue[0];
          assert !calls[d].stage.Finished? ==> d in queue;
        }
        FinishedMeansSettled(calls, p);
      }
    } else {
      var head := queue[0];
      assert head < c && !calls[head].stage.Finished?;
      if calls[c].previous.Some? && Settled(calls, calls[c].previous.value) {
        SettledMeansFinished(calls, calls[c].previous.value, head);
        assert false;
      }
    }
  }

  /** The map has an entry exactly for the paths with a queue. */
  lemma EntryIffInUse(calls: seq<Call>, operations: map<Path, nat>, path: Path)
    requires Valid(calls, operations)
    ensures path in operations <==> |Queue(calls, path)| > 0
    ensures path in operations ==> operations[path] == Queue(calls, path)[|Queue(calls, path)| - 1]
  {
    QueueHolds(calls, path);
    var queue := Queue(calls, path);
    if path in operations {
      assert operations[path] in queue;
      assert queue[|queue| - 1] <= operations[path];
    }
    if |queue| > 0 {
      assert calls[queue[0]].path in operations;
    }
  }

  // -------------------------------------------------------------- methods

  lemma {:induction false} SettledDependsOnFinished(before: seq<Call>, after: seq<Call>, c: nat)
    requires Ordered(before) && Ordered(after) && c < |before| <= |after|
    requires forall d :: 0 <= d <= c ==>
               after[d].previous == before[d].previous
               && (before[d].stage.Finished? ==> after[d].stage.Finished?)
    requires Settled(before, c)
    ensures Settled(after, c)
    decreases c
  {
    if before[c].previous.Some? {
      SettledDependsOnFinished(before, after, before[c].previous.value);
    }
  }

  lemma {:induction false} QueueAfterStage(calls: seq<Call>, c: nat, stage: Stage, path: Path)
    requires c < |calls|
    ensures !stage.Finished? && !calls[c].stage.Finished? ==>
              Queue(calls[c := calls[c].(stage := stage)], path) == Queue(calls, path)
    decreases |calls|
  {
    if c < |calls| - 1 {
      QueueAfterStage(calls[..|calls| - 1], c, stage, path);
      var after := calls[c := calls[c].(stage := stage)];
      assert after[..|calls| - 1] == calls[..|calls| - 1][c := calls[c].(stage := stage)];
    } else {
      var after := calls[c := calls[c].(stage := stage)];
      assert after[..|calls| - 1] == calls[..|calls| - 1];
    }
  }

  lemma {:induction false} QueueOfFinished(calls: seq<Call>, path: Path)
    requires forall d :: 0 <= d < |calls| && calls[d].path == path ==> calls[d].stage.Finished?
    ensures |Queue(calls, path)| == 0
    decreases |calls|
  {
    if |calls| > 0 {
      QueueOfFinished(calls[..|calls| - 1], path);
    }
  }

  /** Finishing the first unfinished call of a path removes the head. */
  lemma {:induction false} QueueAfterFinish(calls: seq<Call>, c: nat, failed: bool, path: Path)
    requires c < |calls| && !calls[c].stage.Finished?
    requires forall d :: 0 <= d < c && calls[d].path == calls[c].path ==> calls[d].stage.Finished?
    ensures var after := Queue(calls[c := calls[c].(stage := Finished(failed))], path);
            if path == calls[c].path
            then |Queue(calls, path)| > 0 && Queue(calls, path)[0] == c && after == Queue(calls, path)[1..]
            else after == Queue(calls, path)
    decreases |calls|
  {
    var after := calls[c := calls[c].(stage := Finished(failed))];
    if c < |calls| - 1 {
      QueueAfterFinish(calls[..|calls| - 1], c, failed, path);
      assert after[..|calls| - 1] == calls[..|calls| - 1][c := calls[c].(stage := Finished(failed))];
    } else {
      assert after[..|calls| - 1] == calls[..|calls| - 1];
      if path == calls[c].path {
        QueueOfFinished(calls[..c], path);
      }
    }
  }

  lemma AwaitedStays(before: seq<Call>, after: seq<Call>)
    requires Ordered(before) && Ordered(after) && Awaited(before) && |before| <= |after|
    requires forall d :: 0 <= d < |before| ==>
               after[d].previous == before[d].previous
               && (before[d].stage.Finished? ==> after[d].stage.Finished?)
    ensures forall c :: 0 <= c < |before| && !before[c].stage.Waiting? ==>
              after[c].previous.None? || Settled(after, after[c].previous.value)
    ensures forall c :: 0 <= c < |before| && Settled(before, c) ==> Settled(after, c)
  {
    forall c | 0 <= c < |before| && Settled(before, c)
      ensures Settled(after, c)
    {
      SettledDependsOnFinished(before, after, c);
    }
  }

  function Staged(calls: seq<Call>, c: nat, stage: Stage): seq<Call>
    requires c < |calls|
  {
    calls[c := calls[c].(stage := stage)]
  }

  lemma EnterKeeps(calls: seq<Call>, operations: map<Path, nat>, path: Path)
    requires Valid(calls, operations)
    ensures var previous := if path in operations then Some(operations[path]) else None;
            Valid(calls + [Call(path, previous, Waiting)], operations[path := |calls|])
  {
    var previous := if path in operations then Some(operations[path]) else None;
    var after := calls + [Call(path, previous, Waiting)];
    AwaitedStays(calls, after);
  }

  lemma ChainedStays(calls: seq<Call>, c: nat, stage: Stage)
    requires Chained(calls) && c < |calls| && !calls[c].stage.Finished?
    ensures Chained(Staged(calls, c, stage))
  {
  }

  lemma MappedAfterLeave(calls: seq<Call>, operations: map<Path, nat>, c: nat, failed: bool)
    requires Mapped(calls, operations) && c < |calls| && calls[c].stage == Running
    requires forall d :: 0 <= d < c && calls[d].path == calls[c].path ==> calls[d].stage.Finished?
    ensures calls[c].path in operations
    ensures Mapped(Staged(calls, c, Finished(failed)),
                   if operations[calls[c].path] == c then operations - {calls[c].path} else operations)
  {
  }

  lemma BeginKeeps(calls: seq<Call>, operations: map<Path, nat>, c: nat)
    requires Valid(calls, operations) && c < |calls| && calls[c].stage == Waiting
    requires calls[c].previous.None? || Settled(calls, calls[c].previous.value)
    ensures Valid(Staged(calls, c, Running), operations)
  {
    ChainedStays(calls, c, Running);
    AwaitedStays(calls, Staged(calls, c, Running));
  }

  lemma LeaveKeeps(calls: seq<Call>, operations: map<Path, nat>, c: nat, failed: bool)
    requires Valid(calls, operations) && c < |calls| && calls[c].stage == Running
    ensures calls[c].path in operations
    ensures Valid(Staged(calls, c, Finished(failed)),
                  if operations[calls[c].path] == c then operations - {calls[c].path} else operations)
  {
    forall d | 0 <= d < c && calls[d].path == calls[c].path
      ensures calls[d].stage.Finished?
    {
      StartedInOrder(calls, operations, c, d);
    }
    MappedAfterLeave(calls, operations, c, failed);
    ChainedStays(calls, c, Finished(failed));
    AwaitedStays(calls, Staged(calls, c, Finished(failed)));
  }

  class RepositoryOperations {
    var calls: seq<Call>
    var operations: map<Path, nat>

    constructor ()
      ensures Valid(calls, operations) && calls == [] && operations == map[]
    {
      calls := [];
      operations := map[];
    }

    /** Up to the `await` of the previous promise: the call joins the queue. */
    method Enter(path: Path) returns (c: nat)
      requires Valid(calls, operations)
      modifies this
      ensures Valid(calls, operations) && c == |old(calls)| && |calls| == c + 1
      ensures calls[..c] == old(calls) && calls[c].path == path && calls[c].stage == Waiting
      ensures Queue(calls, path) == Queue(old(calls), path) + [c]
      ensures forall other :: other != path ==> Queue(calls, other) == Queue(old(calls), other)
    {
      var previous := if path in operations then Some(operations[path]) else None;
      EnterKeeps(calls, operations, path);
      c := |calls|;
      calls := calls + [Call(path, previous, Waiting)];
      operations := operations[path := c];
      assert calls[..c] == old(calls);
    }

    /** The previous promise is settled: the operation starts. */
    method Begin(c: nat)
      requires Valid(calls, operations) && c < |calls| && calls[c].stage == Waiting
      requires calls[c].previous.None? || Settled(calls, calls[c].previous.value)
      modifies this
      ensures Valid(calls, operations) && operations == old(operations)
      ensures calls == Staged(old(calls), c, Running)
      ensures forall path :: Queue(calls, path) == Queue(old(calls), path)
    {
      BeginKeeps(calls, operations, c);
      calls := Staged(calls, c, Running);
      forall path
        ensures Queue(calls, path) == Queue(old(calls), path)
      {
        QueueAfterStage(old(calls), c, Running, path);
      }
    }

    /** The `finally` block: the turn is released, also after a failure, and
        the map entry goes when no later call replaced it. */
    method Leave(c: nat, failed: bool)
      requires Valid(calls, operations) && c < |calls| && calls[c].stage == Running
      modifies this
      ensures Valid(calls, operations)
      ensures calls == Staged(old(calls), c, Finished(failed))
      ensures |Queue(old(calls), calls[c].path)| > 0 && Queue(old(calls), calls[c].path)[0] == c
      ensures Queue(calls, calls[c].path) == Queue(old(calls), calls[c].path)[1..]
      ensures forall other :: other != calls[c].path ==> Queue(calls, other) == Queue(old(calls), other)
    {
      var path := calls[c].path;
      forall d | 0 <= d < c && calls[d].path == path
        ensures calls[d].stage.Finished?
      {
        StartedInOrder(calls, operations, c, d);
      }
      LeaveKeeps(calls, operations, c, failed);
      calls := Staged(calls, c, Finished(failed));
      forall other
        ensures if other == path
                then |Queue(old(calls), other)| > 0 && Queue(old(calls), other)[0] == c
                     && Queue(calls, other) == Queue(old(calls), other)[1..]
                else Queue(calls, other) == Queue(old(calls), other)
      {
        QueueAfterFinish(old(calls), c, failed, other);
      }
      if path in operations && operations[path] == c {
        operations := operations - {path};
      }
    }
  }
}
