/**
 The executor status projection and the availability derived from it:
 src/kernel/executor-status-projection.ts and src/kernel/agent-availability.ts.
 */
module AgentAvailability {
  import opened Prelude

  type Id(==, !new)
  type Detail(==, !new)

  datatype Kind = Network | Timeout | Infrastructure | Authentication | Configuration | Adapter | OtherKind
  datatype Failure = Failure(kind: Kind, agentClassScope: bool, detail: Detail)

  /** A time is None when it is not a date. */
  datatype Attempt = Attempt(id: Id, completedAt: Option<int>, failure: Option<Failure>)
  datatype CheckOutcome = RecoveredCheck | StillError | ProbeTimeout
  datatype Check = Check(id: Id, completedAt: Option<int>, outcome: CheckOutcome)

  datatype Health = Unverified | Healthy | Error | Disabled
  datatype Projection = Projection(health: Health, attempts: seq<Attempt>, checks: seq<Check>)

  const HISTORY := 10

  /** `[entry, ...history].slice(0, 10)`. */
  function Pushed<T>(entry: T, history: seq<T>): seq<T> {
    var all := [entry] + history;
    if |all| <= HISTORY then all else all[..HISTORY]
  }

  predicate IsPermanent(failure: Failure) {
    failure.agentClassScope
    && (failure.kind == Authentication || failure.kind == Configuration || failure.kind == Adapter)
  }

  predicate HasAttempt(p: Projection, id: Id) {
    exists k :: 0 <= k < |p.attempts| && p.attempts[k].id == id
  }

  predicate HasCheck(p: Projection, id: Id) {
    exists k :: 0 <= k < |p.checks| && p.checks[k].id == id
  }

  /** An attempt without a failure succeeded. */
  function ProjectExecutionOutcome(current: Option<Projection>, attempt: Attempt): Projection {
    var p := if current.Some? then current.value else Projection(Unverified, [], []);
    if HasAttempt(p, attempt.id) then p
    else
      Projection(
        if p.health == Disabled then Disabled
        else if attempt.failure.None? then Healthy
        else if IsPermanent(attempt.failure.value) then Error
        else p.health,
        Pushed(attempt, p.attempts),
        p.checks)
  }

  function ProjectRecoveryCheck(p: Projection, check: Check): Projection {
    if HasCheck(p, check.id) then p
    else
      Projection(
        if p.health == Error && check.outcome == RecoveredCheck then Healthy else p.health,
        p.attempts,
        Pushed(check, p.checks))
  }

  // ----------------------------------------------------------------- runs

  datatype Event = Executed(attempt: Attempt) | Checked(check: Check)

  function Apply(p: Projection, event: Event): Projection {
    match event
    case Executed(attempt) => ProjectExecutionOutcome(Some(p), attempt)
    case Checked(check) => ProjectRecoveryCheck(p, check)
  }

  function Run(p: Projection, events: seq<Event>): Projection
    decreases |events|
  {
    if |events| == 0 then p
    else Apply(Run(p, events[..|events| - 1]), events[|events| - 1])
  }

  function AttemptIds(p: Projection): set<Id> {
    set k | 0 <= k < |p.attempts| :: p.attempts[k].id
  }

  function CheckIds(p: Projection): set<Id> {
    set k | 0 <= k < |p.checks| :: p.checks[k].id
  }

  /** The outcomes of a run that were no repetition, newest first. */
  function Counted(p: Projection, events: seq<Event>): seq<Attempt>
    decreases |events|
  {
    if |events| == 0 then []
    else
      var init, last := events[..|events| - 1], events[|events| - 1];
      if last.Executed? && last.attempt.id !in AttemptIds(Run(p, init))
      then [last.attempt] + Counted(p, init)
      else Counted(p, init)
  }

  function CountedChecks(p: Projection, events: seq<Event>): seq<Check>
    decreases |events|
  {
    if |events| == 0 then []
    else
      var init, last := events[..|events| - 1], events[|events| - 1];
      if last.Checked? && last.check.id !in CheckIds(Run(p, init))
      then [last.check] + CountedChecks(p, init)
      else CountedChecks(p, init)
  }

  function Newest<T>(s: seq<T>): seq<T> {
    if |s| <= 10 then s else s[..10]
  }

  lemma NewestPushed<T>(entry: T, s: seq<T>)
    ensures Pushed(entry, Newest(s)) == Newest([entry] + s)
  {
  }

  /** Over every run both histories are the ten newest entries, newest first. */
  lemma {:induction false} HistoriesAreNewest(p: Projection, events: seq<Event>)
    requires |p.attempts| <= 10 && |p.checks| <= 10
    ensures Run(p, events).attempts == Newest(Counted(p, events) + p.attempts)
    ensures Run(p, events).checks == Newest(CountedChecks(p, events) + p.checks)
    decreases |events|
  {
    if |events| == 0 {
      assert Counted(p, events) + p.attempts == p.attempts;
      assert CountedChecks(p, events) + p.checks == p.checks;
    } else {
      var init, last := events[..|events| - 1], events[|events| - 1];
      HistoriesAreNewest(p, init);
      if last.Executed? {
        NewestPushed(last.attempt, Counted(p, init) + p.attempts);
        assert ([last.attempt] + Counted(p, init)) + p.attempts
            == [last.attempt] + (Counted(p, init) + p.attempts);
      } else {
        NewestPushed(last.check, CountedChecks(p, init) + p.checks);
        assert ([last.check] + CountedChecks(p, init)) + p.checks
            == [last.check] + (CountedChecks(p, init) + p.checks);
      }
    }
  }

  predicate Heals(event: Event) {
    match event
    case Executed(attempt) => attempt.failure.None?
    case Checked(check) => check.outcome == RecoveredCheck
  }

  /** Disabled is never left; error is left only by a success or a recovered
      check; and nothing but those makes a class healthy. */
  lemma {:induction false} HealthOverRuns(p: Projection, events: seq<Event>)
    ensures p.health == Disabled ==> Run(p, events).health == Disabled
    ensures (forall k :: 0 <= k < |events| ==> !Heals(events[k])) ==>
              && (p.health == Error ==> Run(p, events).health == Error)
              && (p.health != Healthy ==> Run(p, events).health != Healthy)
    ensures Run(p, events).health == Disabled ==> p.health == Disabled
    decreases |events|
  {
    if |events| > 0 {
      var init := events[..|events| - 1];
      HealthOverRuns(p, init);
      assert forall k :: 0 <= k < |init| ==> init[k] == events[k];
    }
  }

  /** What settles the health of a class that is not disabled: a new attempt that
      succeeds or fails for good, and a new check that finds an error gone. */
  predicate Decides(p: Projection, event: Event, health: Health) {
    match event
    case Executed(attempt) =>
      && attempt.id !in AttemptIds(p)
      && ((attempt.failure.None? && health == Healthy)
          || (attempt.failure.Some? && attempt.failure.value.agentClassScope && health == Error
              && attempt.failure.value.kind in {Authentication, Configuration, Adapter}))
    case Checked(check) =>
      check.id !in CheckIds(p) && check.outcome == RecoveredCheck && p.health == Error && health == Healthy
  }

  /** Event `j` of a run decides nothing. */
  ghost predicate Idles(p: Projection, events: seq<Event>, j: nat)
    requires j < |events|
  {
    forall h :: !Decides(Run(p, events[..j]), events[j], h)
  }

  /** Event `k` of a run decided its health, and no later one did. */
  ghost predicate DecidedLast(p: Projection, events: seq<Event>, k: nat, health: Health)
    requires k < |events|
  {
    && Decides(Run(p, events[..k]), events[k], health)
    && forall j :: k < j < |events| ==> Idles(p, events, j)
  }

  lemma EventDecides(p: Projection, event: Event)
    requires p.health != Disabled
    ensures var after := Apply(p, event).health;
            Decides(p, event, after) || (after == p.health && forall h :: !Decides(p, event, h))
  {
  }

  /** The last event of a run decides its health or leaves it. */
  lemma LastEventDecides(p: Projection, events: seq<Event>)
    requires events != [] && p.health != Disabled
    ensures var last := |events| - 1; var health := Run(p, events).health;
            || Decides(Run(p, events[..last]), events[last], health)
            || (Idles(p, events, last) && health == Run(p, events[..last]).health)
  {
    var init := events[..|events| - 1];
    HealthOverRuns(p, init);
    EventDecides(Run(p, init), events[|events| - 1]);
  }

  lemma PrefixIdles(p: Projection, events: seq<Event>, init: seq<Event>, j: nat)
    requires j < |init| <= |events| && init == events[..|init|]
    ensures Idles(p, init, j) <==> Idles(p, events, j)
    ensures Run(p, init[..j]) == Run(p, events[..j])
  {
    assert init[..j] == events[..j];
  }

  /** Over every run the health is what the last deciding event made it; without
      one it is the first. */
  lemma {:induction false} HealthIsLastDecided(p: Projection, events: seq<Event>)
    requires p.health != Disabled
    ensures var health := Run(p, events).health;
            || (exists k :: 0 <= k < |events| && DecidedLast(p, events, k, health))
            || (health == p.health && forall j :: 0 <= j < |events| ==> Idles(p, events, j))
    decreases |events|
  {
    if |events| > 0 {
      var last, health := |events| - 1, Run(p, events).health;
      var init := events[..last];
      LastEventDecides(p, events);
      if Decides(Run(p, init), events[last], health) {
        assert DecidedLast(p, events, last, health);
      } else {
        HealthIsLastDecided(p, init);
        forall j | 0 <= j < last
          ensures Idles(p, init, j) <==> Idles(p, events, j)
        {
          PrefixIdles(p, events, init, j);
        }
        if k :| 0 <= k < last && DecidedLast(p, init, k, health) {
          PrefixIdles(p, events, init, k);
          assert DecidedLast(p, events, k, health);
        }
      }
    }
  }

  /** The first outcome of a class starts its projection. */
  lemma FirstOutcome(attempt: Attempt)
    ensures ProjectExecutionOutcome(None, attempt)
            == Projection(
                 match attempt.failure
                 case None => Healthy
                 case Some(failure) =>
                   if failure.agentClassScope && failure.kind in {Authentication, Configuration, Adapter}
                   then Error else Unverified,
                 [attempt], [])
  {
  }

  // --------------------------------------------------------- availability

  datatype Policy = Policy(failureWindow: nat, threshold: nat, cooldown: nat)
  datatype Availability = PermanentlyUnavailable | TemporarilyUnavailable | ProbeEligible | Available

  /** A dated failure of the agent class that may pass. */
  predicate Transient(attempt: Attempt) {
    && attempt.failure.Some? && attempt.failure.value.agentClassScope
    && attempt.failure.value.kind in {Network, Timeout, Infrastructure}
    && attempt.completedAt.Some?
  }

  /** It has happened by now, within the window. */
  predicate Counts(attempt: Attempt, now: int, policy: Policy) {
    && Transient(attempt)
    && attempt.completedAt.value <= now && now - attempt.completedAt.value <= policy.failureWindow
  }

  /** The newest attempts up to here count, and the next one does not. */
  predicate IsStreak(attempts: seq<Attempt>, now: int, policy: Policy, n: nat) {
    && n <= |attempts|
    && (forall k :: 0 <= k < n ==> Counts(attempts[k], now, policy))
    && (n < |attempts| ==> !Counts(attempts[n], now, policy))
  }

  /** The availability that a failure streak of this length calls for. */
  predicate Follows(p: Projection, now: int, policy: Policy, n: nat, a: Availability) {
    && IsStreak(p.attempts, now, policy, n) && (n < policy.threshold || n > 0)
    && a == if n < policy.threshold then Available
            else if now - p.attempts[0].completedAt.value < policy.cooldown then TemporarilyUnavailable
            else ProbeEligible
  }

  /** The availability at a time, from the length of the failure streak. */
  ghost predicate IsAvailability(p: Projection, now: int, policy: Policy, a: Availability) {
    if p.health == Disabled || p.health == Error then a == PermanentlyUnavailable
    else exists n :: Follows(p, now, policy, n, a)
  }

  /** The class failed at most a window ago, in a way that may pass. */
  predicate FailedLately(attempt: Attempt, now: int, policy: Policy) {
    match attempt
    case Attempt(_, Some(at), Some(Failure(kind, agentClassScope, _))) =>
      agentClassScope && (kind.Network? || kind.Timeout? || kind.Infrastructure?)
      && at <= now <= at + policy.failureWindow
    case _ => false
  }

  /** The newest attempts, as many as the threshold, have all failed lately. */
  predicate KeepsFailing(p: Projection, now: int, policy: Policy) {
    && policy.threshold <= |p.attempts|
    && forall k :: 0 <= k < policy.threshold ==> FailedLately(p.attempts[k], now, policy)
  }

  /** None is the exception of reading the first failure of an empty streak: a
      threshold of zero, and no failure that is the newest attempt. A class that
      keeps failing waits for the cooldown after its newest attempt. */
  method DeriveAgentAvailability(projection: Option<Projection>, now: Option<int>, policy: Policy)
    returns (a: Option<Availability>)
    ensures a.None? <==>
              && projection.Some? && now.Some?
              && projection.value.health != Disabled && projection.value.health != Error && policy.threshold == 0
              && (projection.value.attempts == [] || !FailedLately(projection.value.attempts[0], now.value, policy))
    ensures projection.None? ==> a == Some(Available)
    ensures projection.Some? && (projection.value.health == Disabled || projection.value.health == Error) ==>
              a == Some(PermanentlyUnavailable)
    ensures projection.Some? && projection.value.health != Disabled && projection.value.health != Error ==>
              && (now.None? ==> a == Some(Available))
              && (now.Some? && a.Some? ==>
                    && (a.value == Available <==> !KeepsFailing(projection.value, now.value, policy))
                    && (a.value != Available ==>
                          && projection.value.attempts != [] && projection.value.attempts[0].completedAt.Some?
                          && a.value == if now.value < projection.value.attempts[0].completedAt.value + policy.cooldown
                                        then TemporarilyUnavailable else ProbeEligible))
    ensures projection.Some? && now.Some? && a.Some? ==> IsAvailability(projection.value, now.value, policy, a.value)
  {
    if projection.None? { return Some(Available); }
    var p := projection.value;
    if p.health == Disabled || p.health == Error { return Some(PermanentlyUnavailable); }
    if now.None? { return Some(Available); }
    var consecutive: seq<Attempt> := [];
    var i := 0;
    while i < |p.attempts|
      invariant 0 <= i <= |p.attempts| && consecutive == p.attempts[..i]
      invariant forall k :: 0 <= k < i ==> Counts(p.attempts[k], now.value, policy)
    {
      if !Counts(p.attempts[i], now.value, policy) { break; }
      consecutive := consecutive + [p.attempts[i]];
      i := i + 1;
    }
    if |consecutive| < policy.threshold {
      assert Follows(p, now.value, policy, i, Available);
      return Some(Available);
    }
    if |consecutive| == 0 { return None; }
    var latestFailureAt := consecutive[0].completedAt.value;
    var found := if now.value - latestFailureAt < policy.cooldown then TemporarilyUnavailable else ProbeEligible;
    assert Follows(p, now.value, policy, i, found);
    a := Some(found);
  }

  function Rank(a: Availability): nat {
    match a
    case PermanentlyUnavailable => 0
    case TemporarilyUnavailable => 1
    case ProbeEligible => 2
    case Available => 3
  }

  /** At two times from `now` on availability is reported, and the later report
      is the worse one. */
  ghost predicate MovesBackAt(p: Projection, policy: Policy, now: int, earlier: int, later: int,
                              a: Availability, b: Availability)
  {
    && now <= earlier <= later && Rank(b) < Rank(a)
    && IsAvailability(p, earlier, policy, a) && IsAvailability(p, later, policy, b)
  }

  ghost predicate MovesBack(p: Projection, policy: Policy, now: int) {
    exists earlier, later, a, b :: MovesBackAt(p, policy, now, earlier, later, a, b)
  }

  /** The newest attempts up to the threshold are transient failures within one
      window, and one of them is dated after `now`. */
  ghost predicate StreakAhead(attempts: seq<Attempt>, policy: Policy, now: int) {
    var n := policy.threshold;
    && n <= |attempts|
    && (forall k :: 0 <= k < n ==> Transient(attempts[k]))
    && (forall j, k :: 0 <= j < n && 0 <= k < n ==>
          attempts[j].completedAt.value - attempts[k].completedAt.value <= policy.failureWindow)
    && exists k :: 0 <= k < n && attempts[k].completedAt.value > now
  }

  lemma StreakExists(attempts: seq<Attempt>, now: int, policy: Policy) returns (n: nat)
    ensures IsStreak(attempts, now, policy, n)
  {
    n := 0;
    while n < |attempts| && Counts(attempts[n], now, policy)
      invariant n <= |attempts| && forall k :: 0 <= k < n ==> Counts(attempts[k], now, policy)
    {
      n := n + 1;
    }
  }

  /** The latest of the first `n` dates. */
  lemma {:induction false} LatestDate(attempts: seq<Attempt>, n: nat) returns (latest: nat)
    requires 0 < n <= |attempts| && forall k :: 0 <= k < n ==> Transient(attempts[k])
    ensures latest < n && Transient(attempts[latest])
    ensures forall k :: 0 <= k < n ==>
              Transient(attempts[k]) && attempts[k].completedAt.value <= attempts[latest].completedAt.value
    decreases n
  {
    if n == 1 {
      latest := 0;
    } else {
      latest := LatestDate(attempts, n - 1);
      if attempts[n - 1].completedAt.value > attempts[latest].completedAt.value {
        latest := n - 1;
      }
    }
  }

  /** At the latest date the streak is complete, and just before it is not. */
  lemma StreakAheadMovesBack(p: Projection, policy: Policy, now: int)
    requires p.health != Disabled && p.health != Error && policy.threshold > 0
    requires StreakAhead(p.attempts, policy, now)
    ensures MovesBack(p, policy, now)
  {
    var latest := LatestDate(p.attempts, policy.threshold);
    var at := p.attempts[latest].completedAt.value;
    var before := StreakExists(p.attempts, at - 1, policy);
    assert !Counts(p.attempts[latest], at - 1, policy) && before <= latest;
    assert Follows(p, at - 1, policy, before, Available);
    var n := StreakExists(p.attempts, at, policy);
    assert forall k :: 0 <= k < policy.threshold ==> Counts(p.attempts[k], at, policy);
    var b := if at - p.attempts[0].completedAt.value < policy.cooldown then TemporarilyUnavailable else ProbeEligible;
    assert Follows(p, at, policy, n, b);
    assert MovesBackAt(p, policy, now, at - 1, at, Available, b);
  }

  /** Without such a streak a later report is never worse. */
  lemma OtherwiseMovesForward(p: Projection, policy: Policy, now: int, earlier: int, later: int,
                              a: Availability, b: Availability)
    requires now <= earlier <= later
    requires policy.threshold == 0 || !StreakAhead(p.attempts, policy, now)
    requires IsAvailability(p, earlier, policy, a) && IsAvailability(p, later, policy, b)
    ensures Rank(a) <= Rank(b)
  {
    if p.health != Disabled && p.health != Error {
      var n: nat :| Follows(p, earlier, policy, n, a);
      var m: nat :| Follows(p, later, policy, m, b);
      if m >= policy.threshold {
        forall k | 0 <= k < policy.threshold
          ensures Counts(p.attempts[k], earlier, policy)
        {
          assert Counts(p.attempts[k], later, policy);
        }
        assert n >= policy.threshold;
      }
    }
  }

  /** Availability moves back at some time after `now` exactly when it depends
      on attempts at all and such a streak lies ahead. With a threshold of zero
      it never does, among the times at which it is reported. */
  lemma MovesBackIff(p: Projection, policy: Policy, now: int)
    ensures MovesBack(p, policy, now)
            <==> p.health != Disabled && p.health != Error
                 && policy.threshold > 0 && StreakAhead(p.attempts, policy, now)
  {
    if p.health != Disabled && p.health != Error && policy.threshold > 0 && StreakAhead(p.attempts, policy, now) {
      StreakAheadMovesBack(p, policy, now);
    } else if MovesBack(p, policy, now) {
      var earlier, later, a, b :| MovesBackAt(p, policy, now, earlier, later, a, b);
      if policy.threshold == 0 || !StreakAhead(p.attempts, policy, now) {
        OtherwiseMovesForward(p, policy, now, earlier, later, a, b);
      }
    }
  }

  /** As time passes the dates of the attempts that the threshold looks at,
      availability only moves from temporarily unavailable over probe eligible
      to available. */
  lemma AvailabilityMovesForward(p: Projection, policy: Policy, now: int, later: int,
                                 a: Availability, b: Availability)
    requires now <= later
    requires policy.threshold == 0 || !StreakAhead(p.attempts, policy, now)
    requires IsAvailability(p, now, policy, a) && IsAvailability(p, later, policy, b)
    ensures a == PermanentlyUnavailable <==> b == PermanentlyUnavailable
    ensures a == Available ==> b == Available
    ensures a == ProbeEligible ==> b != TemporarilyUnavailable
  {
    MovesBackIff(p, policy, now);
    assert !MovesBackAt(p, policy, now, now, later, a, b);
  }

  /** One failure dated in the future is enough when one failure is too many. */
  lemma FutureFailureMovesBack(policy: Policy, id: Id, detail: Detail, at: int, now: int)
    requires policy.threshold == 1 && now < at
    ensures MovesBack(Projection(Healthy, [Attempt(id, Some(at), Some(Failure.Failure(Network, true, detail)))], []),
                      policy, now)
  {
    var p := Projection(Healthy, [Attempt(id, Some(at), Some(Failure.Failure(Network, true, detail)))], []);
    assert Transient(p.attempts[0]) && p.attempts[0].completedAt.value > now;
    MovesBackIff(p, policy, now);
  }
}
