/**
 A promotion as the Git commands it consists of, each of them a step that
 others may come between: `promoteCandidate` of
 src/execution/managed-git-workspace.ts, which does not run under
 `withRepositoryOperation`.

 The diff of main and candidate is left out, since it changes nothing. A merge
 while another branch is checked out does not touch main.
 */
module PromotionRace {
  import opened Prelude
  import G = GitPublication

  /** The last thing a running promotion has made sure of, or its end. */
  datatype Stage =
    | Begun
    | OnBranch
    | IsClean
    | AtBase
    | ContainsBase
    | HasMerged
    | Ended(integration: nat)
    | Refused(error: G.GitError)
    | Broken

  datatype Job = Job(base: nat, candidate: nat, stage: Stage)

  datatype World = World(repo: G.Repository, jobs: map<G.PublicationId, Job>)

  datatype Step =
    | Begin(id: G.PublicationId, base: nat, candidate: nat)
    | Command(id: G.PublicationId)
    | Break(id: G.PublicationId)
    | MoveMain(main: nat)
    | AddCommit(commit: G.Commit)
    | ChangeProject(onMain: bool, clean: bool)

  /** `git merge --no-ff candidate` in the Project; None is a failure. */
  function AfterMerge(strategy: G.Strategy, repo: G.Repository, candidate: nat): (after: Option<G.Repository>)
    requires G.Sound(repo)
  {
    if !repo.onMain then Some(repo)
    else if candidate >= |repo.commits| then None
    else
      match G.MergeNoFf(strategy, repo.commits, repo.main, candidate)
      case UpToDate => Some(repo)
      case Merged(commit) => Some(repo.(commits := repo.commits + [commit], main := |repo.commits|))
      case _ => None
  }

  /** What the next command of a promotion makes of the repository. */
  function NextRepo(strategy: G.Strategy, repo: G.Repository, job: Job): G.Repository
    requires G.Sound(repo)
  {
    if job.stage == ContainsBase && AfterMerge(strategy, repo, job.candidate).Some?
    then AfterMerge(strategy, repo, job.candidate).value else repo
  }

  function NextStage(strategy: G.Strategy, repo: G.Repository, job: Job): Stage
    requires G.Sound(repo)
  {
    match job.stage
    case Begun => if repo.onMain then OnBranch else Refused(G.NotOnMain)
    case OnBranch => if repo.clean then IsClean else Refused(G.ProjectDirty)
    case IsClean => if repo.main == job.base then AtBase else Refused(G.MainChanged)
    case AtBase =>
      if G.IsAncestor(repo.commits, job.base, job.candidate) then ContainsBase else Refused(G.CandidateMissesMain)
    case ContainsBase => if AfterMerge(strategy, repo, job.candidate).Some? then HasMerged else Refused(G.MergeFailed)
    case HasMerged => Ended(repo.main)
    case ended => ended
  }

  predicate Enabled(w: World, step: Step) {
    match step
    case Begin(id, base, _) => (id !in w.jobs || w.jobs[id].stage.Ended? || w.jobs[id].stage.Refused?
                                || w.jobs[id].stage.Broken?) && base < |w.repo.commits|
    case Command(id) => id in w.jobs
    case Break(id) => id in w.jobs
    case MoveMain(main) => main < |w.repo.commits|
    case AddCommit(commit) => forall p :: p in commit.parents ==> p < |w.repo.commits|
    case ChangeProject(_, _) => true
  }

  lemma MergeIsSound(strategy: G.Strategy, repo: G.Repository, candidate: nat)
    requires G.Sound(repo) && AfterMerge(strategy, repo, candidate).Some?
    ensures var after := AfterMerge(strategy, repo, candidate).value;
            && G.Sound(after) && repo.commits <= after.commits
            && after.onMain == repo.onMain && after.clean == repo.clean
  {
    if repo.onMain && G.MergeNoFf(strategy, repo.commits, repo.main, candidate).Merged? {
      G.AppendIsWellFormed(repo.commits, G.MergeNoFf(strategy, repo.commits, repo.main, candidate).commit);
    }
  }

  /** The world after a step; a step that is not enabled changes nothing. */
  function Apply(strategy: G.Strategy, w: World, step: Step): (after: World)
    requires G.Sound(w.repo)
    ensures G.Sound(after.repo) && w.repo.commits <= after.repo.commits
  {
    if !Enabled(w, step) then w
    else
      match step
      case Begin(id, base, candidate) => w.(jobs := w.jobs[id := Job(base, candidate, Begun)])
      case Command(id) =>
        var job := w.jobs[id];
        if job.stage == ContainsBase && AfterMerge(strategy, w.repo, job.candidate).Some? then
          MergeIsSound(strategy, w.repo, job.candidate);
          World(NextRepo(strategy, w.repo, job), w.jobs[id := job.(stage := NextStage(strategy, w.repo, job))])
        else w.(jobs := w.jobs[id := job.(stage := NextStage(strategy, w.repo, job))])
      case Break(id) => w.(jobs := w.jobs[id := w.jobs[id].(stage := Broken)])
      case MoveMain(main) => w.(repo := w.repo.(main := main))
      case AddCommit(commit) =>
        G.AppendIsWellFormed(w.repo.commits, commit);
        w.(repo := w.repo.(commits := w.repo.commits + [commit]))
      case ChangeProject(onMain, clean) => w.(repo := w.repo.(onMain := onMain, clean := clean))
  }

  /** A job goes on by its own commands alone: it begins where none is under way,
      and it may be broken off at any time. */
  lemma JobMoves(strategy: G.Strategy, w: World, step: Step, id: G.PublicationId)
    requires G.Sound(w.repo)
    ensures var before := Lookup(w.jobs, id); var after := Lookup(Apply(strategy, w, step).jobs, id);
            match step
            case Begin(i, base, candidate) =>
              var underWay := before.Some? && !before.value.stage.Ended? && !before.value.stage.Refused?
                              && !before.value.stage.Broken?;
              after == if i == id && !underWay && base < |w.repo.commits| then Some(Job(base, candidate, Begun))
                       else before
            case Command(i) =>
              after == if i == id && before.Some?
                       then Some(Job(before.value.base, before.value.candidate,
                                     NextStage(strategy, w.repo, before.value)))
                       else before
            case Break(i) =>
              after == if i == id && before.Some? then Some(Job(before.value.base, before.value.candidate, Broken))
                       else before
            case _ => after == before
  {
  }

  /** The repository changes by a merge and by what others do to it. */
  lemma RepositoryMoves(strategy: G.Strategy, w: World, step: Step)
    requires G.Sound(w.repo)
    ensures var repo := Apply(strategy, w, step).repo;
            match step
            case Command(id) => id !in w.jobs || w.jobs[id].stage != ContainsBase ==> repo == w.repo
            case MoveMain(main) => repo == w.repo.(main := if main < |w.repo.commits| then main else w.repo.main)
            case AddCommit(commit) =>
              var known := forall p :: p in commit.parents ==> p < |w.repo.commits|;
              repo == w.repo.(commits := w.repo.commits + if known then [commit] else [])
            case ChangeProject(onMain, clean) => repo == w.repo.(onMain := onMain, clean := clean)
            case _ => repo == w.repo
  {
  }

  // ----------------------------------------------------------- invariant

  /** A promotion that got past its checks was approved for an ancestor of its
      candidate. */
  predicate Checked(h: G.History, job: Job)
    requires G.WellFormed(h)
  {
    && job.base < |h|
    && (job.stage == ContainsBase ==> job.candidate < |h| && G.IsAncestor(h, job.base, job.candidate))
  }

  ghost predicate Valid(w: World) {
    G.Sound(w.repo) && forall id :: id in w.jobs ==> Checked(w.repo.commits, w.jobs[id])
  }

  lemma CheckedStays(h: G.History, grown: G.History, job: Job)
    requires G.WellFormed(h) && G.WellFormed(grown) && h <= grown && Checked(h, job)
    ensures Checked(grown, job)
  {
    if job.stage == ContainsBase {
      G.GrowthKeepsAncestry(h, grown, job.base, job.candidate);
    }
  }

  lemma NextIsChecked(strategy: G.Strategy, repo: G.Repository, job: Job)
    requires G.Sound(repo) && Checked(repo.commits, job)
    ensures Checked(repo.commits, job.(stage := NextStage(strategy, repo, job)))
  {
  }

  lemma StepKeeps(strategy: G.Strategy, w: World, step: Step)
    requires Valid(w)
    ensures Valid(Apply(strategy, w, step))
  {
    var after := Apply(strategy, w, step);
    forall id | id in after.jobs
      ensures Checked(after.repo.commits, after.jobs[id])
    {
      if step == Command(id) && Enabled(w, step) {
        NextIsChecked(strategy, w.repo, w.jobs[id]);
        CheckedStays(w.repo.commits, after.repo.commits, w.jobs[id].(stage := NextStage(strategy, w.repo, w.jobs[id])));
      } else if id in w.jobs && after.jobs[id] == w.jobs[id] {
        CheckedStays(w.repo.commits, after.repo.commits, w.jobs[id]);
      }
    }
  }

  // ----------------------------------------------------------------- runs

  predicate Leads(strategy: G.Strategy, worlds: seq<World>, steps: seq<Step>, k: nat)
    requires k < |steps| && |worlds| == |steps| + 1
  {
    G.Sound(worlds[k].repo) && worlds[k + 1] == Apply(strategy, worlds[k], steps[k])
  }

  /** The worlds that a schedule leads through. */
  ghost predicate IsRun(strategy: G.Strategy, worlds: seq<World>, steps: seq<Step>) {
    && |worlds| == |steps| + 1 && Valid(worlds[0])
    && forall k :: 0 <= k < |steps| ==> Leads(strategy, worlds, steps, k)
  }

  lemma {:induction false} RunKeeps(strategy: G.Strategy, worlds: seq<World>, steps: seq<Step>, n: nat)
    requires IsRun(strategy, worlds, steps) && n <= |steps|
    ensures Valid(worlds[n])
    decreases n
  {
    if n > 0 {
      RunKeeps(strategy, worlds, steps, n - 1);
      assert Leads(strategy, worlds, steps, n - 1);
      StepKeeps(strategy, worlds[n - 1], steps[n - 1]);
    }
  }

  /** The promotion of `id` is not begun anew between the two worlds. */
  predicate SameAttempt(steps: seq<Step>, id: G.PublicationId, i: nat, j: nat)
    requires i <= j <= |steps|
  {
    forall k :: i <= k < j ==> !(steps[k].Begin? && steps[k].id == id)
  }

  lemma {:induction false} JobStays(strategy: G.Strategy, worlds: seq<World>, steps: seq<Step>, id: G.PublicationId,
                                    i: nat, j: nat)
    requires IsRun(strategy, worlds, steps) && i <= j <= |steps| && SameAttempt(steps, id, i, j)
    requires id in worlds[i].jobs
    ensures id in worlds[j].jobs
    ensures worlds[j].jobs[id].base == worlds[i].jobs[id].base
    ensures worlds[j].jobs[id].candidate == worlds[i].jobs[id].candidate
    decreases j
  {
    if i < j {
      JobStays(strategy, worlds, steps, id, i, j - 1);
      assert Leads(strategy, worlds, steps, j - 1);
    }
  }

  /** Main is what was approved: one commit on the approved base, with exactly
      the candidate's tree. */
  predicate IsApproved(repo: G.Repository, base: nat, candidate: nat)
    requires G.Sound(repo)
  {
    candidate < |repo.commits|
    && repo.commits[repo.main] == G.Commit([base, candidate], repo.commits[candidate].tree)
  }

  lemma MergeIsApprovedIff(strategy: G.Strategy, repo: G.Repository, base: nat, candidate: nat)
    requires G.Sound(repo) && base < |repo.commits| && candidate < |repo.commits|
    requires G.IsAncestor(repo.commits, base, candidate)
    requires AfterMerge(strategy, repo, candidate).Some?
    requires AfterMerge(strategy, repo, candidate).value.main != repo.main
    ensures G.Sound(AfterMerge(strategy, repo, candidate).value)
    ensures IsApproved(AfterMerge(strategy, repo, candidate).value, base, candidate) <==> repo.main == base
  {
    MergeIsSound(strategy, repo, candidate);
    var after := AfterMerge(strategy, repo, candidate).value;
    assert after.commits[after.main].parents == [repo.main, candidate];
    if repo.main == base {
      assert candidate != base;
      G.MergeOfDescendant(strategy, repo.commits, base, candidate);
    } else {
      assert [repo.main, candidate][0] != [base, candidate][0];
    }
  }

  /** Whatever comes between the commands of a promotion: a merge that moves
      main makes it what was approved exactly when main is, at the merge, the
      commit it was when the promotion read it. */
  lemma MergeIsWhatWasApprovedIff(strategy: G.Strategy, worlds: seq<World>, steps: seq<Step>, id: G.PublicationId,
                                  i: nat, j: nat)
    requires IsRun(strategy, worlds, steps) && i < j < |steps| && SameAttempt(steps, id, i, j)
    requires steps[i] == Command(id) && id in worlds[i].jobs && worlds[i].jobs[id].stage == IsClean
    requires id in worlds[i + 1].jobs && worlds[i + 1].jobs[id].stage == AtBase
    requires steps[j] == Command(id) && id in worlds[j].jobs && worlds[j].jobs[id].stage == ContainsBase
    requires worlds[j + 1].repo.main != worlds[j].repo.main
    ensures G.Sound(worlds[j + 1].repo)
    ensures var job := worlds[i].jobs[id];
            IsApproved(worlds[j + 1].repo, job.base, job.candidate) <==> worlds[j].repo.main == worlds[i].repo.main
  {
    JobStays(strategy, worlds, steps, id, i, j);
    RunKeeps(strategy, worlds, steps, j);
    RunKeeps(strategy, worlds, steps, j + 1);
    assert Leads(strategy, worlds, steps, i) && Leads(strategy, worlds, steps, j);
    var job := worlds[j].jobs[id];
    assert Checked(worlds[j].repo.commits, job);
    assert worlds[i].repo.main == job.base;
    MergeIsApprovedIff(strategy, worlds[j].repo, job.base, job.candidate);
  }

  // -------------------------------------------------------- without others

  /** The next command with nothing between. */
  function Next(strategy: G.Strategy, w: World, id: G.PublicationId): (after: World)
    requires G.Sound(w.repo)
    ensures G.Sound(after.repo)
  {
    Apply(strategy, w, Command(id))
  }

  lemma CheckOf(strategy: G.Strategy, w: World, id: G.PublicationId)
    requires G.Sound(w.repo) && id in w.jobs && w.jobs[id].stage == Begun
    ensures var job := w.jobs[id];
            var after := Next(strategy, Next(strategy, Next(strategy, Next(strategy, w, id), id), id), id);
            && after.repo == w.repo && id in after.jobs
            && after == w.(jobs := w.jobs[id := after.jobs[id]])
            && after.jobs[id] == job.(stage :=
                 match G.PromotionFault(w.repo, job.candidate, job.base)
                 case Some(fault) => Refused(fault)
                 case None => ContainsBase)
  {
    var job := w.jobs[id];
    var w1 := Next(strategy, w, id);
    var w2 := Next(strategy, w1, id);
    var w3 := Next(strategy, w2, id);
    var w4 := Next(strategy, w3, id);
    assert w1.repo == w.repo && w2.repo == w.repo && w3.repo == w.repo && w4.repo == w.repo;
    assert w4.jobs == w.jobs[id := w4.jobs[id]];
  }

  /** With nothing between its commands a promotion is the one step of the
      publication machine: the same faults, the same repository. */
  lemma UninterruptedIsOneStep(strategy: G.Strategy, w: World, id: G.PublicationId)
    requires G.Sound(w.repo) && id in w.jobs && w.jobs[id].stage == Begun
    ensures var job := w.jobs[id];
            var checked := Next(strategy, Next(strategy, Next(strategy, Next(strategy, w, id), id), id), id);
            var after := Next(strategy, Next(strategy, checked, id), id);
            && id in after.jobs
            && match G.PromotionFault(w.repo, job.candidate, job.base)
               case Some(fault) => after.jobs[id].stage == Refused(fault) && after.repo == w.repo
               case None =>
                 && job.candidate < |w.repo.commits|
                 && after.repo == G.AfterPromotion(w.repo, job.candidate)
                 && after.jobs[id].stage == Ended(after.repo.main)
  {
    CheckOf(strategy, w, id);
    var job := w.jobs[id];
    if G.PromotionFault(w.repo, job.candidate, job.base).None? {
      MergeAtBase(strategy, w.repo, job.base, job.candidate);
    }
  }

  lemma MergeAtBase(strategy: G.Strategy, repo: G.Repository, base: nat, candidate: nat)
    requires G.Sound(repo) && repo.onMain && repo.main == base && G.IsAncestor(repo.commits, base, candidate)
    ensures candidate < |repo.commits|
    ensures AfterMerge(strategy, repo, candidate) == Some(G.AfterPromotion(repo, candidate))
  {
    if candidate != repo.main {
      G.MergeOfDescendant(strategy, repo.commits, repo.main, candidate);
    }
  }

  // -------------------------------------------------------- with others

  /** Main is moved by hand between the checks and the merge, to another commit
      that the candidate contains: the merge succeeds, on a base that nobody
      approved. */
  lemma HandMoveGetsUnderMerge(strategy: G.Strategy, w: World, id: G.PublicationId, moved: nat)
    requires Valid(w) && id in w.jobs && w.jobs[id].stage == ContainsBase && w.repo.onMain
    requires moved < |w.repo.commits| && moved != w.jobs[id].base && moved != w.jobs[id].candidate
    requires G.IsAncestor(w.repo.commits, moved, w.jobs[id].candidate)
    ensures var job := w.jobs[id];
            var after := Next(strategy, Apply(strategy, w, MoveMain(moved)), id);
            && id in after.jobs && after.jobs[id].stage == HasMerged
            && after.repo.main == |w.repo.commits|
            && after.repo.commits[after.repo.main].parents == [moved, job.candidate]
            && !IsApproved(after.repo, job.base, job.candidate)
  {
    var job := w.jobs[id];
    var between := Apply(strategy, w, MoveMain(moved));
    assert Checked(w.repo.commits, job);
    G.MergeOfDescendant(strategy, between.repo.commits, moved, job.candidate);
    assert [moved, job.candidate][0] != [job.base, job.candidate][0];
  }

  /** Two publications approved from one base both pass their checks before
      either merges: the first moves main as approved, and the second moves it
      again, on top of the first, exactly when the two do not conflict. */
  lemma TwoPublicationsRace(strategy: G.Strategy, w: World, a: G.PublicationId, b: G.PublicationId)
    requires Valid(w) && w.repo.onMain && a != b && a in w.jobs && b in w.jobs
    requires w.jobs[a].stage == ContainsBase && w.jobs[b].stage == ContainsBase
    requires w.jobs[a].base == w.repo.main == w.jobs[b].base && w.jobs[a].candidate != w.jobs[a].base
    ensures var first := Next(strategy, w, a);
            var second := Next(strategy, first, b);
            var job := w.jobs[b];
            && job.candidate < |first.repo.commits|
            && IsApproved(first.repo, w.jobs[a].base, w.jobs[a].candidate)
            && (second.repo.main != first.repo.main
                <==> G.MergeNoFf(strategy, first.repo.commits, first.repo.main, job.candidate).Merged?)
            && (second.repo.main != first.repo.main ==> !IsApproved(second.repo, job.base, job.candidate))
  {
    var job := w.jobs[a];
    assert Checked(w.repo.commits, job) && Checked(w.repo.commits, w.jobs[b]);
    MergeAtBase(strategy, w.repo, job.base, job.candidate);
    var first := Next(strategy, w, a);
    assert first.repo == G.AfterPromotion(w.repo, job.candidate) && first.jobs[b] == w.jobs[b];
    StepKeeps(strategy, w, Command(a));
    var second := Next(strategy, first, b);
    if second.repo.main != first.repo.main {
      assert Checked(first.repo.commits, first.jobs[b]);
      MergeIsApprovedIff(strategy, first.repo, w.jobs[b].base, w.jobs[b].candidate);
    }
  }
}
