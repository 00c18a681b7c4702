/**
 Approved publication into the Project's main branch:
 src/execution/managed-git-workspace.ts (validate, promote, synchronize),
 src/execution/workspace-publication-worker.ts and the rows of
 src/storage/workspace-publication-repo.ts.

 A commit is its position in an append-only object database, so the parents of
 a commit are smaller than the commit. A validation, a promotion and a
 synchronisation are one step each, although the source runs several Git
 commands for each of them; a Git failure after a promotion is a step of its
 own. The module PromotionRace takes a promotion apart into its commands.
 */
module GitPublication {
  import opened Prelude
  import opened PublicationStatus

  type Path(==, !new)
  type Blob(==, !new)
  type WorkspaceId(==, !new)
  type PublicationId(==, !new)
  type RequestId(==, !new)
  /** A task and its generation. */
  type Scope(==, !new)

  // -------------------------------------------------------------- history

  type Tree = map<Path, Blob>
  datatype Commit = Commit(parents: seq<nat>, tree: Tree)
  type History = seq<Commit>

  predicate WellFormed(h: History) {
    forall c, p :: 0 <= c < |h| && p in h[c].parents ==> p < c
  }

  /** `git merge-base --is-ancestor a d`. */
  predicate IsAncestor(h: History, a: nat, d: nat)
    requires WellFormed(h)
    decreases d
  {
    a == d || (d < |h| && exists p :: p in h[d].parents && IsAncestor(h, a, p))
  }

  lemma {:induction false} AncestorIsOlder(h: History, a: nat, d: nat)
    requires WellFormed(h) && IsAncestor(h, a, d)
    ensures a <= d
    decreases d
  {
    if a != d {
      var p :| p in h[d].parents && IsAncestor(h, a, p);
      AncestorIsOlder(h, a, p);
    }
  }

  lemma {:induction false} AncestorsCompose(h: History, a: nat, b: nat, d: nat)
    requires WellFormed(h) && IsAncestor(h, a, b) && IsAncestor(h, b, d)
    ensures IsAncestor(h, a, d)
    decreases d
  {
    if b != d {
      var p :| p in h[d].parents && IsAncestor(h, b, p);
      AncestorsCompose(h, a, b, p);
    }
  }

  lemma ParentIsAncestor(h: History, a: nat, p: nat, d: nat)
    requires WellFormed(h) && d < |h| && p in h[d].parents && IsAncestor(h, a, p)
    ensures IsAncestor(h, a, d)
  {
  }

  lemma {:induction false} GrowthKeepsAncestry(h: History, grown: History, a: nat, d: nat)
    requires WellFormed(h) && WellFormed(grown) && h <= grown && d < |h|
    ensures IsAncestor(h, a, d) == IsAncestor(grown, a, d)
    decreases d
  {
    assert h[d] == grown[d];
    forall p | p in h[d].parents
      ensures IsAncestor(h, a, p) == IsAncestor(grown, a, p)
    {
      GrowthKeepsAncestry(h, grown, a, p);
    }
  }

  // ---------------------------------------------------------------- merge

  predicate Common(h: History, a: nat, b: nat, c: nat)
    requires WellFormed(h)
  {
    IsAncestor(h, c, a) && IsAncestor(h, c, b)
  }

  /** The common ancestors that are no ancestor of another common ancestor. */
  function MergeBases(h: History, a: nat, b: nat): set<nat>
    requires WellFormed(h)
  {
    set c: nat | c <= a && Common(h, a, b, c)
                 && forall other: nat :: other <= a && other != c && Common(h, a, b, other)
                      ==> !IsAncestor(h, c, other)
  }

  lemma BaseOfDescendant(h: History, a: nat, d: nat)
    requires WellFormed(h) && IsAncestor(h, a, d)
    ensures MergeBases(h, a, d) == {a}
  {
    forall c: nat | c <= a && c != a && Common(h, a, d, c)
      ensures c !in MergeBases(h, a, d)
    {
      assert Common(h, a, d, a);
    }
    forall other: nat | other <= a && other != a && Common(h, a, d, other)
      ensures !IsAncestor(h, a, other)
    {
      if IsAncestor(h, a, other) {
        AncestorIsOlder(h, a, other);
        assert false;
      }
    }
    assert a in MergeBases(h, a, d);
  }

  /** What Git's merge does beyond picking a side: content merge of one path
      that both sides changed, and the virtual base of several merge bases. */
  datatype Strategy = Strategy(
    blend: (Option<Blob>, Blob, Blob) -> Option<Blob>,
    virtualBase: (History, set<nat>) -> Tree)

  function At(t: Tree, p: Path): Option<Blob> {
    if p in t then Some(t[p]) else None
  }

  datatype Resolution = Kept(content: Option<Blob>) | Clash

  function Resolve(strategy: Strategy, base: Option<Blob>, ours: Option<Blob>, theirs: Option<Blob>): Resolution {
    if ours == theirs || theirs == base then Kept(ours)
    else if ours == base then Kept(theirs)
    else if ours.Some? && theirs.Some? then
      var blended := strategy.blend(base, ours.value, theirs.value);
      if blended.Some? then Kept(blended) else Clash
    else Clash
  }

  function ConflictPaths(strategy: Strategy, base: Tree, ours: Tree, theirs: Tree): set<Path> {
    set p | p in base.Keys + ours.Keys + theirs.Keys
            && Resolve(strategy, At(base, p), At(ours, p), At(theirs, p)).Clash?
  }

  function MergedTree(strategy: Strategy, base: Tree, ours: Tree, theirs: Tree): Tree {
    map p | p in base.Keys + ours.Keys + theirs.Keys
            && Resolve(strategy, At(base, p), At(ours, p), At(theirs, p)).Kept?
            && Resolve(strategy, At(base, p), At(ours, p), At(theirs, p)).content.Some?
      :: Resolve(strategy, At(base, p), At(ours, p), At(theirs, p)).content.value
  }

  function BaseTree(strategy: Strategy, h: History, bases: set<nat>): Tree {
    if exists c :: c in bases && c < |h| && bases == {c} then
      var c :| c in bases && c < |h| && bases == {c};
      h[c].tree
    else strategy.virtualBase(h, bases)
  }

  lemma OnlyBase(strategy: Strategy, h: History, c: nat)
    requires c < |h|
    ensures BaseTree(strategy, h, {c}) == h[c].tree
  {
    assert c in {c} && {c} == {c};
  }

  datatype Merge = UpToDate | Merged(commit: Commit) | Unrelated | Conflict(paths: set<Path>)

  /** `git merge --no-ff theirs` with `ours` checked out. */
  function MergeNoFf(strategy: Strategy, h: History, ours: nat, theirs: nat): Merge
    requires WellFormed(h) && ours < |h| && theirs < |h|
  {
    if IsAncestor(h, theirs, ours) then UpToDate
    else
      var bases := MergeBases(h, ours, theirs);
      if bases == {} then Unrelated
      else
        var base := BaseTree(strategy, h, bases);
        var conflicts := ConflictPaths(strategy, base, h[ours].tree, h[theirs].tree);
        if conflicts != {} then Conflict(conflicts)
        else Merged(Commit([ours, theirs], MergedTree(strategy, base, h[ours].tree, h[theirs].tree)))
  }

  lemma MergeWithUnchangedSide(strategy: Strategy, base: Tree, theirs: Tree)
    ensures ConflictPaths(strategy, base, base, theirs) == {}
    ensures MergedTree(strategy, base, base, theirs) == theirs
  {
    assert ConflictPaths(strategy, base, base, theirs) == {};
    assert MergedTree(strategy, base, base, theirs) == theirs;
  }

  /** Merging a descendant never conflicts and takes the descendant's tree. */
  lemma MergeOfDescendant(strategy: Strategy, h: History, ours: nat, theirs: nat)
    requires WellFormed(h) && ours < |h| && theirs < |h| && ours != theirs
    requires IsAncestor(h, ours, theirs)
    ensures MergeNoFf(strategy, h, ours, theirs) == Merged(Commit([ours, theirs], h[theirs].tree))
  {
    if IsAncestor(h, theirs, ours) {
      AncestorIsOlder(h, theirs, ours);
      AncestorIsOlder(h, ours, theirs);
      assert false;
    }
    BaseOfDescendant(h, ours, theirs);
    OnlyBase(strategy, h, ours);
    MergeWithUnchangedSide(strategy, h[ours].tree, h[theirs].tree);
  }

  /** A merge that succeeds keeps, path by path, the side that changed. */
  lemma MergeKeepsEachSidesChanges(strategy: Strategy, base: Tree, ours: Tree, theirs: Tree, p: Path)
    requires ConflictPaths(strategy, base, ours, theirs) == {}
    ensures At(theirs, p) == At(base, p) ==> At(MergedTree(strategy, base, ours, theirs), p) == At(ours, p)
    ensures At(ours, p) == At(base, p) ==> At(MergedTree(strategy, base, ours, theirs), p) == At(theirs, p)
    ensures At(ours, p) == At(theirs, p) ==> At(MergedTree(strategy, base, ours, theirs), p) == At(ours, p)
  {
    assert p !in ConflictPaths(strategy, base, ours, theirs);
  }

  /** Both sides changed the path, differently, and the strategy has no content
      for both: one deleted it, or their contents do not blend. */
  predicate Clashes(strategy: Strategy, base: Tree, ours: Tree, theirs: Tree, p: Path) {
    && At(ours, p) != At(theirs, p) && At(ours, p) != At(base, p) && At(theirs, p) != At(base, p)
    && (p !in ours || p !in theirs || strategy.blend(At(base, p), ours[p], theirs[p]) == None)
  }

  /** What a merge of two commits with one best merge base comes to, unless one
      of them contains the other: a conflict exactly at the paths that clash, or a
      commit of both that has, where both sides changed a path, what they blend
      to. */
  lemma MergeIff(strategy: Strategy, h: History, ours: nat, theirs: nat, c: nat)
    requires WellFormed(h) && ours < |h| && theirs < |h| && c < |h|
    requires MergeBases(h, ours, theirs) == {c} && !IsAncestor(h, theirs, ours)
    ensures var base, a, b := h[c].tree, h[ours].tree, h[theirs].tree;
            match MergeNoFf(strategy, h, ours, theirs)
            case Conflict(paths) => paths != {} && forall p :: p in paths <==> Clashes(strategy, base, a, b, p)
            case Merged(commit) =>
              && commit.parents == [ours, theirs] && (forall p :: !Clashes(strategy, base, a, b, p))
              && forall p :: At(commit.tree, p)
                   == if At(a, p) == At(b, p) || At(b, p) == At(base, p) then At(a, p)
                      else if At(a, p) == At(base, p) then At(b, p)
                      else if p in a && p in b then strategy.blend(At(base, p), a[p], b[p]) else None
            case _ => false
  {
    OnlyBase(strategy, h, c);
    var base, a, b := h[c].tree, h[ours].tree, h[theirs].tree;
    assert c in MergeBases(h, ours, theirs);
    forall p
      ensures p in ConflictPaths(strategy, base, a, b) <==> Clashes(strategy, base, a, b, p)
    {
    }
  }

  function ChangedPaths(before: Tree, after: Tree): set<Path> {
    set p | p in before.Keys + after.Keys && At(before, p) != At(after, p)
  }

  // ----------------------------------------------------------- repository

  lemma AppendIsWellFormed(h: History, commit: Commit)
    requires WellFormed(h)
    requires forall p :: p in commit.parents ==> p < |h|
    ensures WellFormed(h + [commit])
  {
  }

  datatype Worktree = Worktree(head: nat, onBranch: bool, clean: bool)

  datatype Repository = Repository(
    commits: History, main: nat,
    /** Whether the Project directory has main checked out, without changes. */
    onMain: bool, clean: bool,
    worktrees: map<WorkspaceId, Worktree>)

  predicate Sound(repo: Repository) {
    && WellFormed(repo.commits)
    && repo.main < |repo.commits|
    && forall w :: w in repo.worktrees ==> repo.worktrees[w].head < |repo.commits|
  }

  datatype GitError =
    | WorktreeMissing | WrongBranch | WorktreeDirty | NotOnMain | ProjectDirty
    | CandidateMissesMain | MainChanged | CandidateLost | MergeFailed

  datatype Validation = Validation(candidate: nat, main: nat, changedPaths: set<Path>)

  /** Why a candidate is refused; None exactly when it is accepted. */
  function ValidationFault(repo: Repository, w: WorkspaceId): Option<GitError>
    requires Sound(repo)
  {
    if w !in repo.worktrees then Some(WorktreeMissing)
    else if !repo.worktrees[w].onBranch then Some(WrongBranch)
    else if !repo.worktrees[w].clean then Some(WorktreeDirty)
    else if !repo.onMain then Some(NotOnMain)
    else if !repo.clean then Some(ProjectDirty)
    else if !IsAncestor(repo.commits, repo.main, repo.worktrees[w].head) then Some(CandidateMissesMain)
    else None
  }

  /** Why a promotion is refused. */
  function PromotionFault(repo: Repository, candidate: nat, approvedMain: nat): Option<GitError>
    requires Sound(repo)
  {
    if !repo.onMain then Some(NotOnMain)
    else if !repo.clean then Some(ProjectDirty)
    else if repo.main != approvedMain then Some(MainChanged)
    else if !IsAncestor(repo.commits, repo.main, candidate) then Some(CandidateMissesMain)
    else None
  }

  /** The repository after a promotion that is not refused. */
  function AfterPromotion(repo: Repository, candidate: nat): (repo': Repository)
    requires Sound(repo) && candidate < |repo.commits|
    ensures Sound(repo') && repo.commits <= repo'.commits
  {
    if candidate == repo.main then repo
    else repo.(
      commits := repo.commits + [Commit([repo.main, candidate], repo.commits[candidate].tree)],
      main := |repo.commits|)
  }

  predicate SyncMerges(strategy: Strategy, repo: Repository, w: WorkspaceId)
    requires Sound(repo) && w in repo.worktrees
  {
    var head := repo.worktrees[w].head;
    IsAncestor(repo.commits, repo.main, head)
    || MergeNoFf(strategy, repo.commits, head, repo.main).Merged?
  }

  function SyncFault(strategy: Strategy, repo: Repository, w: WorkspaceId, candidate: nat): Option<GitError>
    requires Sound(repo)
  {
    if !repo.onMain then Some(NotOnMain)
    else if !repo.clean then Some(ProjectDirty)
    else if w !in repo.worktrees then Some(WorktreeMissing)
    else if !IsAncestor(repo.commits, candidate, repo.worktrees[w].head) then Some(CandidateLost)
    else if !SyncMerges(strategy, repo, w) then Some(MergeFailed)
    else None
  }

  function AfterSync(strategy: Strategy, repo: Repository, w: WorkspaceId): (repo': Repository)
    requires Sound(repo) && w in repo.worktrees && SyncMerges(strategy, repo, w)
    ensures Sound(repo') && repo.commits <= repo'.commits
  {
    var head := repo.worktrees[w].head;
    if IsAncestor(repo.commits, repo.main, head) then repo
    else repo.(
      commits := repo.commits + [MergeNoFf(strategy, repo.commits, head, repo.main).commit],
      worktrees := repo.worktrees[w := repo.worktrees[w].(head := |repo.commits|)])
  }

  /** A merge commit of two commits has both as ancestors, and keeps every
      ancestry that held before. */
  lemma MergeCommitContains(h: History, commit: Commit, p: nat, a: nat)
    requires WellFormed(h)
    requires forall p :: p in commit.parents ==> p < |h|
    requires p in commit.parents && IsAncestor(h, a, p)
    ensures WellFormed(h + [commit])
    ensures IsAncestor(h + [commit], a, |h|)
  {
    AppendIsWellFormed(h, commit);
    GrowthKeepsAncestry(h, h + [commit], a, p);
    ParentIsAncestor(h + [commit], a, p, |h|);
  }

  class ManagedGitWorkspaceService {
    const strategy: Strategy
    var repo: Repository

    constructor (strategy: Strategy, repo: Repository)
      requires Sound(repo)
      ensures this.strategy == strategy && this.repo == repo
    {
      this.strategy := strategy;
      this.repo := repo;
    }

    /** Accepts a candidate only when it contains the current main. */
    method ValidateExecutorCandidate(w: WorkspaceId) returns (r: Result<Validation, GitError>)
      requires Sound(repo)
      ensures r.Failure? ==>
                r.error == if w !in repo.worktrees then WorktreeMissing
                           else if !repo.worktrees[w].onBranch then WrongBranch
                           else if !repo.worktrees[w].clean then WorktreeDirty
                           else if !repo.onMain then NotOnMain else if !repo.clean then ProjectDirty
                           else CandidateMissesMain
      ensures r.Success? <==> w in repo.worktrees && repo.worktrees[w].onBranch && repo.worktrees[w].clean
                              && repo.onMain && repo.clean
                              && IsAncestor(repo.commits, repo.main, repo.worktrees[w].head)
      ensures match ValidationFault(repo, w)
              case Some(fault) => r == Failure(fault)
              case None =>
                && r.Success? && r.value.main == repo.main && r.value.candidate == repo.worktrees[w].head
                && IsAncestor(repo.commits, r.value.main, r.value.candidate)
                && forall p :: p in r.value.changedPaths <==>
                     At(repo.commits[repo.main].tree, p) != At(repo.commits[r.value.candidate].tree, p)
    {
      if w !in repo.worktrees { return Failure(WorktreeMissing); }
      var worktree := repo.worktrees[w];
      if !worktree.onBranch { return Failure(WrongBranch); }
      if !worktree.clean { return Failure(WorktreeDirty); }
      if !repo.onMain { return Failure(NotOnMain); }
      if !repo.clean { return Failure(ProjectDirty); }
      var mainCommit := repo.main;
      var candidateCommit := worktree.head;
      if !IsAncestor(repo.commits, mainCommit, candidateCommit) { return Failure(CandidateMissesMain); }
      var changedPaths := ChangedPaths(repo.commits[mainCommit].tree, repo.commits[candidateCommit].tree);
      return Success(Validation(candidateCommit, mainCommit, changedPaths));
    }

    /** Merges an approved candidate into main: one new commit on top of the
        approved base, with exactly the candidate's tree. */
    method PromoteCandidate(candidate: nat, approvedMain: nat) returns (r: Result<nat, GitError>)
      requires Sound(repo)
      modifies this
      ensures Sound(repo)
      ensures r.Success? <==> old(repo).onMain && old(repo).clean && old(repo).main == approvedMain
                              && IsAncestor(old(repo).commits, approvedMain, candidate)
      ensures r.Failure? ==>
                r.error == if !old(repo).onMain then NotOnMain else if !old(repo).clean then ProjectDirty
                           else if old(repo).main != approvedMain then MainChanged else CandidateMissesMain
      ensures match PromotionFault(old(repo), candidate, approvedMain)
              case Some(fault) => r == Failure(fault) && repo == old(repo)
              case None =>
                && r == Success(repo.main)
                && repo.worktrees == old(repo).worktrees && repo.onMain && repo.clean
                && IsAncestor(repo.commits, old(repo).main, repo.main)
                && IsAncestor(repo.commits, candidate, repo.main)
                && repo.commits[repo.main].tree == old(repo).commits[candidate].tree
                && (candidate == old(repo).main ==> repo == old(repo))
                && (candidate != old(repo).main ==>
                      && repo.main == |old(repo).commits|
                      && repo.commits == old(repo).commits + [repo.commits[repo.main]]
                      && repo.commits[repo.main].parents == [old(repo).main, candidate])
      ensures PromotionFault(old(repo), candidate, approvedMain).None? ==>
                candidate < |old(repo).commits| && repo == AfterPromotion(old(repo), candidate)
    {
      if !repo.onMain { return Failure(NotOnMain); }
      if !repo.clean { return Failure(ProjectDirty); }
      var currentMain := repo.main;
      if currentMain != approvedMain { return Failure(MainChanged); }
      if !IsAncestor(repo.commits, currentMain, candidate) { return Failure(CandidateMissesMain); }
      match MergeNoFf(strategy, repo.commits, currentMain, candidate) {
        case UpToDate =>
          AncestorIsOlder(repo.commits, candidate, currentMain);
          AncestorIsOlder(repo.commits, currentMain, candidate);
        case Merged(commit) =>
          MergeOfDescendant(strategy, repo.commits, currentMain, candidate);
          assert commit.parents == [currentMain, candidate];
          MergeCommitContains(repo.commits, commit, currentMain, currentMain);
          MergeCommitContains(repo.commits, commit, candidate, candidate);
          repo := repo.(commits := repo.commits + [commit], main := |repo.commits|);
        case _ =>
          MergeOfDescendant(strategy, repo.commits, currentMain, candidate);
          assert false;
      }
      return Success(repo.main);
    }

    /** Brings main into the candidate's worktree. */
    method SynchronizeCandidate(w: WorkspaceId, candidate: nat) returns (r: Result<Validation, GitError>)
      requires Sound(repo)
      modifies this
      ensures Sound(repo)
      ensures repo.main == old(repo).main && old(repo).commits <= repo.commits
      ensures r == Failure(NotOnMain) <==> !old(repo).onMain
      ensures r == Failure(ProjectDirty) <==> old(repo).onMain && !old(repo).clean
      ensures r == Failure(WorktreeMissing) <==> old(repo).onMain && old(repo).clean && w !in old(repo).worktrees
      ensures old(repo).onMain && old(repo).clean && w in old(repo).worktrees ==>
                var head := old(repo).worktrees[w].head;
                && (r == Failure(CandidateLost) <==> !IsAncestor(old(repo).commits, candidate, head))
                && (r.Failure? ==>
                      r.error == CandidateLost
                      || (r.error == MergeFailed && !IsAncestor(old(repo).commits, repo.main, head)
                          && !MergeNoFf(strategy, old(repo).commits, head, repo.main).Merged?))
                && (r.Success? ==>
                      && repo == old(repo).(commits := repo.commits,
                                            worktrees := old(repo).worktrees[w := old(repo).worktrees[w].(
                                              head := r.value.candidate)])
                      && (if IsAncestor(old(repo).commits, repo.main, head)
                          then r.value.candidate == head && repo.commits == old(repo).commits
                          else r.value.candidate == |old(repo).commits| == |repo.commits| - 1
                               && repo.commits[r.value.candidate].parents == [head, repo.main])
                      && (forall p :: p in r.value.changedPaths <==>
                            At(repo.commits[repo.main].tree, p) != At(repo.commits[r.value.candidate].tree, p)))
      ensures match SyncFault(strategy, old(repo), w, candidate)
              case Some(fault) => r == Failure(fault) && repo == old(repo)
              case None =>
                && repo == AfterSync(strategy, old(repo), w)
                && r.Success? && r.value.main == repo.main
                && r.value.candidate == repo.worktrees[w].head
                && IsAncestor(repo.commits, repo.main, r.value.candidate)
                && IsAncestor(repo.commits, candidate, r.value.candidate)
                && IsAncestor(repo.commits, old(repo).worktrees[w].head, r.value.candidate)
                && (forall v :: v in repo.worktrees && v != w ==>
                      v in old(repo).worktrees && repo.worktrees[v] == old(repo).worktrees[v])
    {
      if !repo.onMain { return Failure(NotOnMain); }
      if !repo.clean { return Failure(ProjectDirty); }
      var mainBase := repo.main;
      if w !in repo.worktrees { return Failure(WorktreeMissing); }
      var current := repo.worktrees[w].head;
      if !IsAncestor(repo.commits, candidate, current) { return Failure(CandidateLost); }
      if !IsAncestor(repo.commits, mainBase, current) {
        match MergeNoFf(strategy, repo.commits, current, mainBase)
        case Merged(commit) =>
          assert commit.parents == [current, mainBase];
          MergeCommitContains(repo.commits, commit, current, current);
          MergeCommitContains(repo.commits, commit, mainBase, mainBase);
          MergeCommitContains(repo.commits, commit, current, candidate);
          repo := repo.(
            commits := repo.commits + [commit],
            worktrees := repo.worktrees[w := repo.worktrees[w].(head := |repo.commits|)]);
        case _ =>
          return Failure(MergeFailed);
      }
      var synchronized := repo.worktrees[w].head;
      return Success(Validation(synchronized, mainBase,
        ChangedPaths(repo.commits[mainBase].tree, repo.commits[synchronized].tree)));
    }
  }

  // -------------------------------------------------------------- machine

  /** What findNextBlocking orders by: topology layer, dispatch order, subtask. */
  datatype Place = Place(layer: int, dispatchOrder: int, subtask: int)

  datatype Publication = Publication(
    scope: Scope, place: Place, workspace: WorkspaceId, request: RequestId, base: nat, candidate: nat,
    status: Status, integration: Option<nat>)

  type Rows = map<PublicationId, Publication>

  /** What a running `publish` call knows: nothing was merged yet, or main
      became this commit. */
  datatype Stage = Chosen | Promoted(integrationCommit: nat)

  /** One successful promotion, as a record for the theorems. */
  datatype Promotion = Promotion(
    id: PublicationId, request: RequestId, base: nat, candidate: nat, before: nat, after: nat)

  datatype State = State(
    repo: Repository,
    rows: Rows,
    requests: set<RequestId>,
    approved: set<RequestId>,
    /** Lost in a crash: running publish calls, and answers of validate and
        synchronize that are not stored yet. */
    publishers: map<PublicationId, Stage>,
    validated: set<(nat, nat)>,
    synchronized: set<(PublicationId, nat, nat)>,
    promotions: seq<Promotion>)

  datatype Step =
    | AddCommit(commit: Commit)
    | MoveMain(main: nat)
    | ChangeProject(onMain: bool, clean: bool)
    | ChangeWorktree(w: WorkspaceId, worktree: Option<Worktree>)
    | Validate(w: WorkspaceId)
    | InsertCandidate(id: PublicationId, row: Publication)
    | Approve(id: PublicationId)
    | Deny(id: PublicationId)
    | RequestCancellation(workspaces: set<WorkspaceId>)
    | MarkCancelled(id: PublicationId)
    | RecoverApplying(id: PublicationId)
    | MarkApplying(id: PublicationId)
    | Promote(id: PublicationId)
    | FailGit(id: PublicationId)
    | Record(id: PublicationId)
    | Abandon(id: PublicationId)
    | Synchronize(id: PublicationId, w: WorkspaceId, candidate: nat)
    | Reissue(id: PublicationId, request: RequestId, base: nat, candidate: nat)
    | Crash

  predicate HasStatus(s: State, id: PublicationId, status: Status) {
    id in s.rows && s.rows[id].status == status
  }

  predicate Enabled(strategy: Strategy, s: State, step: Step)
    requires Sound(s.repo)
  {
    match step
    case AddCommit(commit) => forall p :: p in commit.parents ==> p < |s.repo.commits|
    case MoveMain(main) => main < |s.repo.commits|
    case ChangeProject(_, _) => true
    case ChangeWorktree(w, worktree) => worktree.Some? ==> worktree.value.head < |s.repo.commits|
    case Validate(w) => ValidationFault(s.repo, w).None?
    case InsertCandidate(id, row) =>
      id !in s.rows && row.request !in s.requests && (row.base, row.candidate) in s.validated
      && row.status == AwaitingApproval && row.integration == None
    case Approve(id) => HasStatus(s, id, AwaitingApproval)
    case Deny(id) => HasStatus(s, id, AwaitingApproval)
    case RequestCancellation(_) => true
    case MarkCancelled(id) => HasStatus(s, id, Cancelling)
    case RecoverApplying(id) => HasStatus(s, id, Applying) && id !in s.publishers
    case MarkApplying(id) => HasStatus(s, id, Pending) && id !in s.publishers
    case Promote(id) => id in s.rows && id in s.publishers && s.publishers[id] == Chosen
    case FailGit(id) => id in s.rows && id in s.publishers
    case Record(id) => id in s.rows && id in s.publishers && s.publishers[id].Promoted?
    case Abandon(id) => id in s.publishers
    case Synchronize(id, w, candidate) => SyncFault(strategy, s.repo, w, candidate).None?
    case Reissue(id, request, base, candidate) =>
      HasStatus(s, id, Parked) && request !in s.requests && (id, base, candidate) in s.synchronized
    case Crash => true
  }

  function SetStatus(s: State, id: PublicationId, status: Status): State
    requires id in s.rows
  {
    s.(rows := s.rows[id := s.rows[id].(status := status)])
  }

  function CancelledRows(rows: Rows, workspaces: set<WorkspaceId>): Rows {
    map id | id in rows ::
      if rows[id].workspace in workspaces
      then rows[id].(status := AfterCancellation(rows[id].status)) else rows[id]
  }

  function AfterPublishFailed(s: State, id: PublicationId, status: Status): State
    requires id in s.rows
  {
    var s' := if s.rows[id].status == Applying then SetStatus(s, id, status) else s;
    s'.(publishers := s.publishers - {id})
  }

  function AfterPromote(s: State, id: PublicationId): (s': State)
    requires Sound(s.repo) && id in s.rows
    ensures Sound(s'.repo)
  {
    var row := s.rows[id];
    match PromotionFault(s.repo, row.candidate, row.base)
    case None =>
      var repo := AfterPromotion(s.repo, row.candidate);
      s.(repo := repo,
         publishers := s.publishers[id := Promoted(repo.main)],
         promotions := s.promotions
           + [Promotion(id, row.request, row.base, row.candidate, s.repo.main, repo.main)])
    case Some(fault) =>
      AfterPublishFailed(s, id, if fault == MainChanged then Parked else Pending)
  }

  function AfterRecord(s: State, id: PublicationId): State
    requires id in s.rows && id in s.publishers && s.publishers[id].Promoted?
  {
    var row := s.rows[id];
    var rows :=
      if row.status == Applying
      then s.rows[id := row.(status := Integrated, integration := Some(s.publishers[id].integrationCommit))]
      else s.rows;
    s.(rows := rows, publishers := s.publishers - {id})
  }

  /** The step's effect; a step that is not enabled changes nothing. */
  function Apply(strategy: Strategy, s: State, step: Step): (s': State)
    requires Sound(s.repo)
    ensures Sound(s'.repo)
  {
    if !Enabled(strategy, s, step) then s
    else match step
      case AddCommit(commit) =>
        AppendIsWellFormed(s.repo.commits, commit);
        s.(repo := s.repo.(commits := s.repo.commits + [commit]))
      case MoveMain(main) => s.(repo := s.repo.(main := main))
      case ChangeProject(onMain, clean) => s.(repo := s.repo.(onMain := onMain, clean := clean))
      case ChangeWorktree(w, worktree) =>
        s.(repo := s.repo.(worktrees :=
          if worktree.Some? then s.repo.worktrees[w := worktree.value] else s.repo.worktrees - {w}))
      case Validate(w) => s.(validated := s.validated + {(s.repo.main, s.repo.worktrees[w].head)})
      case InsertCandidate(id, row) =>
        s.(rows := s.rows[id := row], requests := s.requests + {row.request})
      case Approve(id) => SetStatus(s, id, Pending).(approved := s.approved + {s.rows[id].request})
      case Deny(id) => SetStatus(s, id, Denied)
      case RequestCancellation(workspaces) =>
        s.(rows := CancelledRows(s.rows, workspaces))
      case MarkCancelled(id) => SetStatus(s, id, Cancelled)
      case RecoverApplying(id) => SetStatus(s, id, Pending)
      case MarkApplying(id) => SetStatus(s, id, Applying).(publishers := s.publishers[id := Chosen])
      case Promote(id) => AfterPromote(s, id)
      case FailGit(id) => AfterPublishFailed(s, id, Pending)
      case Record(id) => AfterRecord(s, id)
      case Abandon(id) => s.(publishers := s.publishers - {id})
      case Synchronize(id, w, candidate) =>
        var repo := AfterSync(strategy, s.repo, w);
        s.(repo := repo, synchronized := s.synchronized + {(id, repo.main, repo.worktrees[w].head)})
      case Reissue(id, request, base, candidate) =>
        s.(rows := s.rows[id := s.rows[id].(
             status := AwaitingApproval, request := request, base := base, candidate := candidate)],
           requests := s.requests + {request})
      case Crash => s.(publishers := map[], validated := {}, synchronized := {})
  }

  // ------------------------------------------------------------- one row

  predicate RowGoes(before: Publication, after: Publication, when: bool, status: Status) {
    after == if when then before.(status := status) else before
  }

  /** What a step makes of one row. */
  predicate RowBecomes(s: State, step: Step, id: PublicationId, before: Publication, after: Publication)
    requires Sound(s.repo)
  {
    match step
    case Approve(p) => RowGoes(before, after, p == id && before.status == AwaitingApproval, Pending)
    case Deny(p) => RowGoes(before, after, p == id && before.status == AwaitingApproval, Denied)
    case RequestCancellation(workspaces) =>
      RowGoes(before, after, before.workspace in workspaces, AfterCancellation(before.status))
    case MarkCancelled(p) => RowGoes(before, after, p == id && before.status == Cancelling, Cancelled)
    case RecoverApplying(p) =>
      RowGoes(before, after, p == id && before.status == Applying && id !in s.publishers, Pending)
    case MarkApplying(p) =>
      RowGoes(before, after, p == id && before.status == Pending && id !in s.publishers, Applying)
    case Promote(p) =>
      var fault := PromotionFault(s.repo, before.candidate, before.base);
      RowGoes(before, after, p == id && id in s.publishers && s.publishers[id].Chosen? && fault.Some?
                             && before.status == Applying,
              if fault == Some(MainChanged) then Parked else Pending)
    case FailGit(p) => RowGoes(before, after, p == id && id in s.publishers && before.status == Applying, Pending)
    case Record(p) =>
      if p == id && id in s.publishers && s.publishers[id].Promoted? && before.status == Applying
      then after == before.(status := Integrated, integration := Some(s.publishers[id].integrationCommit))
      else after == before
    case Reissue(p, request, base, candidate) =>
      if p == id && before.status == Parked && request !in s.requests && (p, base, candidate) in s.synchronized
      then after == before.(status := AwaitingApproval, request := request, base := base, candidate := candidate)
      else after == before
    case _ => after == before
  }

  /** Every write of a row, over every step; rows come only by `InsertCandidate`. */
  lemma RowMoves(strategy: Strategy, s: State, step: Step, id: PublicationId)
    requires Sound(s.repo)
    ensures var rows := Apply(strategy, s, step).rows;
            && (id in s.rows ==> id in rows && RowBecomes(s, step, id, s.rows[id], rows[id]))
            && (id in rows && id !in s.rows ==>
                  && step.InsertCandidate? && step.id == id && rows[id] == step.row
                  && step.row.status == AwaitingApproval && (step.row.base, step.row.candidate) in s.validated)
  {
  }

  /** What others do to the repository, as they do it. */
  lemma RepositoryMoves(strategy: Strategy, s: State, step: Step)
    requires Sound(s.repo)
    ensures var repo := Apply(strategy, s, step).repo;
            match step
            case AddCommit(commit) =>
              var known := forall p :: p in commit.parents ==> p < |s.repo.commits|;
              repo == s.repo.(commits := s.repo.commits + if known then [commit] else [])
            case MoveMain(main) => repo == s.repo.(main := if main < |s.repo.commits| then main else s.repo.main)
            case ChangeProject(onMain, clean) => repo == s.repo.(onMain := onMain, clean := clean)
            case ChangeWorktree(w, None) => repo == s.repo.(worktrees := s.repo.worktrees - {w})
            case ChangeWorktree(w, Some(worktree)) =>
              repo == if worktree.head < |s.repo.commits| then s.repo.(worktrees := s.repo.worktrees[w := worktree])
                      else s.repo
            case Promote(_) => repo.worktrees == s.repo.worktrees && repo.onMain == s.repo.onMain
            case Synchronize(_, _, _) => repo.main == s.repo.main && repo.onMain == s.repo.onMain
            case _ => repo == s.repo
  {
  }

  /** Answers of validations and synchronisations are known until a crash, and
      requests that were used stay used; a validated candidate with a new request
      is inserted. */
  lemma AnswersMove(strategy: Strategy, s: State, step: Step, r: RequestId, v: (nat, nat), a: (PublicationId, nat, nat))
    requires Sound(s.repo)
    ensures var t := Apply(strategy, s, step);
            && (v in t.validated <==>
                  !step.Crash? && (v in s.validated
                                   || (step.Validate? && ValidationFault(s.repo, step.w).None?
                                       && v == (s.repo.main, s.repo.worktrees[step.w].head))))
            && (a in t.synchronized <==>
                  !step.Crash? && (a in s.synchronized
                                   || (step.Synchronize? && step.w in t.repo.worktrees
                                       && SyncFault(strategy, s.repo, step.w, step.candidate).None?
                                       && a == (step.id, s.repo.main, t.repo.worktrees[step.w].head))))
            && (step.InsertCandidate? && step.id !in s.rows && step.row.request !in s.requests
                && (step.row.base, step.row.candidate) in s.validated
                && step.row.status == AwaitingApproval && step.row.integration == None ==>
                  Lookup(t.rows, step.id) == Some(step.row))
            && (r in s.requests ==> r in t.requests)
            && (r in t.requests && r !in s.requests ==>
                  (step.InsertCandidate? && step.row.request == r) || (step.Reissue? && step.request == r))
            && (step.InsertCandidate? && step.id !in s.rows && step.id in t.rows ==> step.row.request in t.requests)
            && (step.Reissue? && step.id in s.rows && t.rows != s.rows ==> step.request in t.requests)
  {
  }

  /** Which publish calls are running, and how far they are. */
  lemma CallsMove(strategy: Strategy, s: State, step: Step, id: PublicationId)
    requires Sound(s.repo)
    ensures var before := Lookup(s.publishers, id); var after := Lookup(Apply(strategy, s, step).publishers, id);
            match step
            case MarkApplying(p) =>
              after == if p == id && id in s.rows && s.rows[id].status == Pending && before.None?
                       then Some(Chosen) else before
            case Promote(p) =>
              if p == id && id in s.rows && before == Some(Chosen)
              then after == if PromotionFault(s.repo, s.rows[id].candidate, s.rows[id].base).None?
                            then Some(Promoted(Apply(strategy, s, step).repo.main)) else None
              else after == before
            case FailGit(p) => after == if p == id && id in s.rows then None else before
            case Record(p) =>
              after == if p == id && id in s.rows && before.Some? && before.value.Promoted? then None else before
            case Abandon(p) => after == if p == id then None else before
            case Crash => after == None
            case _ => after == before
  {
  }

  /** What is known to be approved grows by approvals alone. */
  lemma ApprovalsGrow(strategy: Strategy, s: State, step: Step, request: RequestId)
    requires Sound(s.repo)
    ensures request in Apply(strategy, s, step).approved <==>
              || request in s.approved
              || (step.Approve? && step.id in s.rows && s.rows[step.id].status == AwaitingApproval
                  && s.rows[step.id].request == request)
  {
  }

  // ------------------------------------------------------------ invariant

  predicate Contains(h: History, base: nat, candidate: nat)
    requires WellFormed(h)
  {
    base < |h| && candidate < |h| && IsAncestor(h, base, candidate)
  }

  /** An approved promotion: from the approved base, by at most one merge
      commit whose first parent is the old main, to the candidate's tree. */
  predicate Faithful(h: History, p: Promotion)
    requires WellFormed(h)
  {
    && Contains(h, p.base, p.candidate)
    && p.before == p.base
    && p.after < |h|
    && (if p.candidate == p.base then p.after == p.base
        else p.after > p.candidate && h[p.after] == Commit([p.before, p.candidate], h[p.candidate].tree))
  }

  /** Statuses only an approval leads to. */
  predicate NeedsApproval(status: Status) {
    status != AwaitingApproval && status != Denied && status != Cancelled
  }

  predicate InFlight(status: Status) {
    status == Applying || status == Cancelling || status == Cancelled
  }

  predicate RowsOk(h: History, rows: Rows, requests: set<RequestId>, approved: set<RequestId>)
    requires WellFormed(h)
  {
    && (forall id :: id in rows ==>
          && Contains(h, rows[id].base, rows[id].candidate)
          && rows[id].request in requests
          && (NeedsApproval(rows[id].status) ==> rows[id].request in approved))
    && (forall id, other :: id in rows && other in rows && id != other ==>
          rows[id].request != rows[other].request)
    && approved <= requests
  }

  predicate AnswersOk(h: History, validated: set<(nat, nat)>, synchronized: set<(PublicationId, nat, nat)>)
    requires WellFormed(h)
  {
    && (forall v :: v in validated ==> Contains(h, v.0, v.1))
    && (forall v :: v in synchronized ==> Contains(h, v.1, v.2))
  }

  /** Main became `after` by the approval `request` of publication `id`. */
  predicate Landed(promotions: seq<Promotion>, id: PublicationId, request: RequestId, after: nat) {
    exists p :: p in promotions && p.id == id && p.request == request && p.after == after
  }

  /** A publish call runs only while its row is in flight, or was cancelled
      in flight. */
  predicate PublishersOk(rows: Rows, publishers: map<PublicationId, Stage>,
                         approved: set<RequestId>, promotions: seq<Promotion>)
  {
    forall id :: id in publishers ==>
      && id in rows && InFlight(rows[id].status) && rows[id].request in approved
      && (publishers[id].Promoted? ==>
            Landed(promotions, id, rows[id].request, publishers[id].integrationCommit))
  }

  predicate PromotionsOk(h: History, approved: set<RequestId>, promotions: seq<Promotion>)
    requires WellFormed(h)
  {
    && (forall p :: p in promotions ==> Faithful(h, p) && p.request in approved)
    && (forall p, q :: p in promotions && q in promotions && p.request == q.request ==>
          p.base == q.base && p.candidate == q.candidate && p.id == q.id)
  }

  predicate RowsMatch(rows: Rows, promotions: seq<Promotion>) {
    && (forall p, id :: p in promotions && id in rows && rows[id].request == p.request ==>
          p.base == rows[id].base && p.candidate == rows[id].candidate && p.id == id)
    && (forall id :: id in rows && rows[id].status == Integrated ==>
          rows[id].integration.Some?
          && Landed(promotions, id, rows[id].request, rows[id].integration.value))
  }

  predicate Invariant(s: State) {
    && Sound(s.repo)
    && RowsOk(s.repo.commits, s.rows, s.requests, s.approved)
    && AnswersOk(s.repo.commits, s.validated, s.synchronized)
    && PublishersOk(s.rows, s.publishers, s.approved, s.promotions)
    && PromotionsOk(s.repo.commits, s.approved, s.promotions)
    && RowsMatch(s.rows, s.promotions)
  }

  // ----------------------------------------------------- every step keeps

  lemma GrowthKeeps(s: State, h: History)
    requires Invariant(s) && WellFormed(h) && s.repo.commits <= h
    ensures RowsOk(h, s.rows, s.requests, s.approved)
    ensures AnswersOk(h, s.validated, s.synchronized)
    ensures PromotionsOk(h, s.approved, s.promotions)
  {
    forall base: nat, candidate: nat | Contains(s.repo.commits, base, candidate)
      ensures Contains(h, base, candidate)
    {
      GrowthKeepsAncestry(s.repo.commits, h, base, candidate);
    }
    forall p | p in s.promotions
      ensures Faithful(h, p)
    {
      assert Faithful(s.repo.commits, p);
    }
  }

  lemma AfterPromotionGrows(repo: Repository, candidate: nat)
    requires Sound(repo) && Contains(repo.commits, repo.main, candidate)
    ensures var repo' := AfterPromotion(repo, candidate);
            && Sound(repo') && repo.commits <= repo'.commits
            && IsAncestor(repo'.commits, repo.main, repo'.main)
            && IsAncestor(repo'.commits, candidate, repo'.main)
  {
    if candidate != repo.main {
      var commit := Commit([repo.main, candidate], repo.commits[candidate].tree);
      assert commit.parents[0] == repo.main && commit.parents[1] == candidate;
      MergeCommitContains(repo.commits, commit, repo.main, repo.main);
      MergeCommitContains(repo.commits, commit, candidate, candidate);
    }
  }

  lemma AfterSyncGrows(strategy: Strategy, repo: Repository, w: WorkspaceId, candidate: nat)
    requires Sound(repo) && SyncFault(strategy, repo, w, candidate).None?
    ensures var repo' := AfterSync(strategy, repo, w);
            && Sound(repo') && repo.commits <= repo'.commits && repo'.main == repo.main
            && w in repo'.worktrees
            && Contains(repo'.commits, repo.main, repo'.worktrees[w].head)
            && IsAncestor(repo'.commits, candidate, repo'.worktrees[w].head)
  {
    var head := repo.worktrees[w].head;
    if !IsAncestor(repo.commits, repo.main, head) {
      var commit := MergeNoFf(strategy, repo.commits, head, repo.main).commit;
      assert commit.parents == [head, repo.main];
      MergeCommitContains(repo.commits, commit, repo.main, repo.main);
      MergeCommitContains(repo.commits, commit, head, candidate);
    }
  }

  lemma LandedStays(promotions: seq<Promotion>, more: seq<Promotion>)
    requires promotions <= more
    ensures forall id, request, after :: Landed(promotions, id, request, after)
                                         ==> Landed(more, id, request, after)
  {
    forall id, request, after | Landed(promotions, id, request, after)
      ensures Landed(more, id, request, after)
    {
      var p :| p in promotions && p.id == id && p.request == request && p.after == after;
      assert p in more;
    }
  }

  lemma RowsMatchAdded(s: State, p: Promotion)
    requires Invariant(s)
    requires p.id in s.rows && p.request == s.rows[p.id].request
    requires p.base == s.rows[p.id].base && p.candidate == s.rows[p.id].candidate
    ensures RowsMatch(s.rows, s.promotions + [p])
  {
    LandedStays(s.promotions, s.promotions + [p]);
  }

  lemma PromotionsOkAdded(s: State, p: Promotion)
    requires Invariant(s) && Faithful(s.repo.commits, p)
    requires p.id in s.rows && p.request == s.rows[p.id].request && p.request in s.approved
    requires p.base == s.rows[p.id].base && p.candidate == s.rows[p.id].candidate
    ensures PromotionsOk(s.repo.commits, s.approved, s.promotions + [p])
  {
  }

  lemma PromotionAdded(s: State, p: Promotion)
    requires Invariant(s)
    requires p.id in s.publishers && p.request == s.rows[p.id].request
    requires p.base == s.rows[p.id].base && p.candidate == s.rows[p.id].candidate
    requires Faithful(s.repo.commits, p)
    ensures var s' := s.(promotions := s.promotions + [p],
                         publishers := s.publishers[p.id := Promoted(p.after)]);
            Invariant(s')
  {
    RowsMatchAdded(s, p);
    PromotionsOkAdded(s, p);
    var more := s.promotions + [p];
    LandedStays(s.promotions, more);
    assert more[|s.promotions|] == p;
    assert Landed(more, p.id, p.request, p.after);
  }

  lemma PromoteKeeps(s: State, id: PublicationId)
    requires Invariant(s) && id in s.rows && id in s.publishers && s.publishers[id] == Chosen
    ensures Invariant(AfterPromote(s, id))
  {
    var row := s.rows[id];
    match PromotionFault(s.repo, row.candidate, row.base)
    case None =>
      AfterPromotionGrows(s.repo, row.candidate);
      var repo := AfterPromotion(s.repo, row.candidate);
      GrowthKeeps(s, repo.commits);
      PromotionAdded(s.(repo := repo),
                     Promotion(id, row.request, row.base, row.candidate, s.repo.main, repo.main));
    case Some(fault) =>
      FailureKeeps(s, id, if fault == MainChanged then Parked else Pending);
  }

  lemma FailureKeeps(s: State, id: PublicationId, status: Status)
    requires Invariant(s) && id in s.rows && id in s.publishers
    requires status == Parked || status == Pending
    ensures Invariant(AfterPublishFailed(s, id, status))
  {
  }

  lemma RepositoryStepKeeps(strategy: Strategy, s: State, step: Step)
    requires Invariant(s) && Enabled(strategy, s, step)
    requires step.AddCommit? || step.MoveMain? || step.ChangeProject? || step.ChangeWorktree?
    ensures Invariant(Apply(strategy, s, step))
  {
    var s' := Apply(strategy, s, step);
    if step.AddCommit? {
      AppendIsWellFormed(s.repo.commits, step.commit);
    }
    GrowthKeeps(s, s'.repo.commits);
  }

  lemma AnswerStepKeeps(strategy: Strategy, s: State, step: Step)
    requires Invariant(s) && Enabled(strategy, s, step)
    requires step.Validate? || step.Synchronize? || step.Crash? || step.Abandon?
    ensures Invariant(Apply(strategy, s, step))
  {
    match step
    case Validate(_) =>
    case Crash =>
    case Abandon(_) =>
    case Synchronize(id, w, candidate) =>
      AfterSyncGrows(strategy, s.repo, w, candidate);
      GrowthKeeps(s, AfterSync(strategy, s.repo, w).commits);
  }

  lemma StatusKeeps(s: State, id: PublicationId, status: Status, approved: set<RequestId>)
    requires Invariant(s) && id in s.rows
    requires approved == s.approved || approved == s.approved + {s.rows[id].request}
    requires status != Integrated
    requires NeedsApproval(status) ==> s.rows[id].request in approved
    requires id in s.publishers ==> InFlight(status)
    ensures Invariant(SetStatus(s, id, status).(approved := approved))
  {
    GrowthKeeps(s, s.repo.commits);
  }

  lemma RecordKeeps(s: State, id: PublicationId)
    requires Invariant(s) && id in s.publishers && s.publishers[id].Promoted?
    ensures Invariant(AfterRecord(s, id))
  {
  }

  lemma CancelledRowsKeep(s: State, workspaces: set<WorkspaceId>)
    requires Invariant(s)
    ensures RowsOk(s.repo.commits, CancelledRows(s.rows, workspaces), s.requests, s.approved)
    ensures RowsMatch(CancelledRows(s.rows, workspaces), s.promotions)
  {
  }

  lemma CancellationKeeps(strategy: Strategy, s: State, workspaces: set<WorkspaceId>)
    requires Invariant(s)
    ensures Invariant(Apply(strategy, s, RequestCancellation(workspaces)))
  {
    CancelledRowsKeep(s, workspaces);
    var rows := CancelledRows(s.rows, workspaces);
    forall id | id in s.publishers
      ensures InFlight(rows[id].status) && rows[id].request == s.rows[id].request
    {
    }
    assert PublishersOk(rows, s.publishers, s.approved, s.promotions);
    assert Apply(strategy, s, RequestCancellation(workspaces)) == s.(rows := rows);
  }

  lemma RequestIsFresh(s: State, request: RequestId)
    requires Invariant(s) && request !in s.requests
    ensures forall p :: p in s.promotions ==> p.request != request
  {
  }

  lemma InsertKeeps(s: State, id: PublicationId, row: Publication)
    requires Invariant(s) && row.request !in s.requests && id !in s.publishers
    requires Contains(s.repo.commits, row.base, row.candidate) && row.status == AwaitingApproval
    ensures Invariant(s.(rows := s.rows[id := row], requests := s.requests + {row.request}))
  {
    RequestIsFresh(s, row.request);
  }

  lemma RowStepKeeps(strategy: Strategy, s: State, step: Step)
    requires Invariant(s) && Enabled(strategy, s, step)
    requires step.Approve? || step.Deny? || step.MarkCancelled? || step.RecoverApplying? || step.MarkApplying?
    ensures Invariant(Apply(strategy, s, step))
  {
    match step
    case Approve(id) => StatusKeeps(s, id, Pending, s.approved + {s.rows[id].request});
    case Deny(id) => StatusKeeps(s, id, Denied, s.approved);
    case MarkCancelled(id) => StatusKeeps(s, id, Cancelled, s.approved);
    case RecoverApplying(id) => StatusKeeps(s, id, Pending, s.approved);
    case MarkApplying(id) => StatusKeeps(s, id, Applying, s.approved);
  }

  lemma CandidateStepKeeps(strategy: Strategy, s: State, step: Step)
    requires Invariant(s) && Enabled(strategy, s, step) && (step.InsertCandidate? || step.Reissue?)
    ensures Invariant(Apply(strategy, s, step))
  {
    match step
    case InsertCandidate(id, row) => InsertKeeps(s, id, row);
    case Reissue(id, request, base, candidate) =>
      InsertKeeps(s, id, s.rows[id].(
        status := AwaitingApproval, request := request, base := base, candidate := candidate));
  }

  lemma PublishStepKeeps(strategy: Strategy, s: State, step: Step)
    requires Invariant(s) && Enabled(strategy, s, step) && (step.FailGit? || step.Promote? || step.Record?)
    ensures Invariant(Apply(strategy, s, step))
  {
    match step
    case FailGit(id) => FailureKeeps(s, id, Pending);
    case Promote(id) => PromoteKeeps(s, id);
    case Record(id) => RecordKeeps(s, id);
  }

  lemma StepKeeps(strategy: Strategy, s: State, step: Step)
    requires Invariant(s)
    ensures Invariant(Apply(strategy, s, step))
  {
    if Enabled(strategy, s, step) {
      match step
      case FailGit(_) => PublishStepKeeps(strategy, s, step);
      case Promote(_) => PublishStepKeeps(strategy, s, step);
      case Record(_) => PublishStepKeeps(strategy, s, step);
      case RequestCancellation(workspaces) => CancellationKeeps(strategy, s, workspaces);
      case InsertCandidate(_, _) => CandidateStepKeeps(strategy, s, step);
      case Reissue(_, _, _, _) => CandidateStepKeeps(strategy, s, step);
      case Validate(_) => AnswerStepKeeps(strategy, s, step);
      case Synchronize(_, _, _) => AnswerStepKeeps(strategy, s, step);
      case Crash => AnswerStepKeeps(strategy, s, step);
      case Abandon(_) => AnswerStepKeeps(strategy, s, step);
      case AddCommit(_) => RepositoryStepKeeps(strategy, s, step);
      case MoveMain(_) => RepositoryStepKeeps(strategy, s, step);
      case ChangeProject(_, _) => RepositoryStepKeeps(strategy, s, step);
      case ChangeWorktree(_, _) => RepositoryStepKeeps(strategy, s, step);
      case _ => RowStepKeeps(strategy, s, step);
    }
  }

  // ----------------------------------------------------------------- runs

  /** The state after a schedule of steps. */
  function Run(strategy: Strategy, s: State, steps: seq<Step>): (s': State)
    requires Sound(s.repo)
    ensures Sound(s'.repo)
    decreases |steps|
  {
    if steps == [] then s else Run(strategy, Apply(strategy, s, steps[0]), steps[1..])
  }

  lemma {:induction false} RunKeeps(strategy: Strategy, s: State, steps: seq<Step>)
    requires Invariant(s)
    ensures Invariant(Run(strategy, s, steps))
    decreases |steps|
  {
    if steps != [] {
      StepKeeps(strategy, s, steps[0]);
      RunKeeps(strategy, Apply(strategy, s, steps[0]), steps[1..]);
    }
  }

  /** Nothing was published yet. */
  predicate Start(s: State) {
    Sound(s.repo)
    && s.rows == map[] && s.requests == {} && s.approved == {}
    && s.publishers == map[] && s.validated == {} && s.synchronized == {} && s.promotions == []
  }

  predicate StepExtendsMain(strategy: Strategy, s: State, step: Step)
    requires Sound(s.repo)
  {
    step.MoveMain? && Enabled(strategy, s, step) ==> IsAncestor(s.repo.commits, s.repo.main, step.main)
  }

  /** Every move of main by hand goes to a descendant of the main it leaves. */
  predicate MovesExtendMain(strategy: Strategy, s: State, steps: seq<Step>)
    requires Sound(s.repo)
    decreases |steps|
  {
    steps == []
    || (StepExtendsMain(strategy, s, steps[0])
        && MovesExtendMain(strategy, Apply(strategy, s, steps[0]), steps[1..]))
  }

  /** The record of promotions is only ever appended to, and a step appends
      the promotion it makes. */
  lemma StepRecords(strategy: Strategy, s: State, step: Step)
    requires Sound(s.repo)
    ensures var s' := Apply(strategy, s, step);
            && s.repo.commits <= s'.repo.commits
            && (s'.promotions == s.promotions
                || (&& step.Promote? && |s'.promotions| == |s.promotions| + 1
                    && s.promotions <= s'.promotions
                    && var p := s'.promotions[|s.promotions|];
                       && p.id == step.id && p.before == s.repo.main && p.after == s'.repo.main
                       && p.candidate < |s.repo.commits|
                       && IsAncestor(s'.repo.commits, p.candidate, s'.repo.main)))
            && (s'.repo.main != s.repo.main ==>
                  step.MoveMain? || (s'.promotions != s.promotions
                    && IsAncestor(s'.repo.commits, s.repo.main, s'.repo.main)))
  {
    if Enabled(strategy, s, step) {
      match step
      case Promote(id) =>
        var row := s.rows[id];
        if PromotionFault(s.repo, row.candidate, row.base).None? {
          AfterPromotionGrows(s.repo, row.candidate);
        }
      case Synchronize(id, w, candidate) => AfterSyncGrows(strategy, s.repo, w, candidate);
      case _ =>
    }
  }

  /** Apart from moves by hand, main changes only by promoting an approved
      candidate from its approved base, to a commit on top of the old main
      that has the candidate's tree. */
  lemma MainMovesOnlyByApproval(strategy: Strategy, s: State, step: Step)
    requires Invariant(s) && !step.MoveMain?
    requires Apply(strategy, s, step).repo.main != s.repo.main
    ensures step.Promote? && step.id in s.rows
    ensures var s', row := Apply(strategy, s, step), s.rows[step.id];
            && row.request in s.approved && row.base == s.repo.main
            && s'.repo.main == |s.repo.commits|
            && s'.repo.commits == s.repo.commits
                 + [Commit([s.repo.main, row.candidate], s.repo.commits[row.candidate].tree)]
  {
    StepRecords(strategy, s, step);
  }

  /** Everything promoted is still in main, and promotions follow each other. */
  predicate Retained(s: State)
    requires WellFormed(s.repo.commits)
  {
    && (forall p :: p in s.promotions ==>
          IsAncestor(s.repo.commits, p.after, s.repo.main) && IsAncestor(s.repo.commits, p.candidate, s.repo.main))
    && (forall i, j :: 0 <= i < j < |s.promotions| ==> s.promotions[i].after <= s.promotions[j].before)
  }

  lemma StepGrowsMain(strategy: Strategy, s: State, step: Step)
    requires Sound(s.repo) && StepExtendsMain(strategy, s, step)
    ensures var s' := Apply(strategy, s, step);
            && s.repo.commits <= s'.repo.commits
            && IsAncestor(s'.repo.commits, s.repo.main, s'.repo.main)
  {
    StepRecords(strategy, s, step);
    var s' := Apply(strategy, s, step);
    assert s'.repo.main != s.repo.main ==> step.MoveMain? || s'.promotions != s.promotions;
  }

  lemma AncestorsStay(s: State, s': State)
    requires Sound(s.repo) && Sound(s'.repo) && s.repo.commits <= s'.repo.commits
    requires IsAncestor(s'.repo.commits, s.repo.main, s'.repo.main)
    ensures forall a: nat :: IsAncestor(s.repo.commits, a, s.repo.main)
              ==> a <= s.repo.main && IsAncestor(s'.repo.commits, a, s'.repo.main)
  {
    forall a: nat | IsAncestor(s.repo.commits, a, s.repo.main)
      ensures a <= s.repo.main && IsAncestor(s'.repo.commits, a, s'.repo.main)
    {
      AncestorIsOlder(s.repo.commits, a, s.repo.main);
      GrowthKeepsAncestry(s.repo.commits, s'.repo.commits, a, s.repo.main);
      AncestorsCompose(s'.repo.commits, a, s.repo.main, s'.repo.main);
    }
  }

  /** Every ancestor of the old main is one of the new main, and no newer. */
  ghost predicate MainKeeps(s: State, s': State)
    requires Sound(s.repo) && Sound(s'.repo)
  {
    forall a: nat :: IsAncestor(s.repo.commits, a, s.repo.main)
      ==> a <= s.repo.main && IsAncestor(s'.repo.commits, a, s'.repo.main)
  }

  lemma RetainedStays(s: State, s': State)
    requires Sound(s.repo) && Sound(s'.repo) && Retained(s) && MainKeeps(s, s')
    requires s'.promotions == s.promotions
    ensures Retained(s')
  {
  }

  lemma RetainedAdds(s: State, s': State, p: Promotion)
    requires Sound(s.repo) && Sound(s'.repo) && Retained(s) && MainKeeps(s, s')
    requires s'.promotions == s.promotions + [p] && p.before == s.repo.main && p.after == s'.repo.main
    requires IsAncestor(s'.repo.commits, p.candidate, s'.repo.main)
    ensures Retained(s')
  {
    forall i | 0 <= i < |s.promotions|
      ensures s'.promotions[i].after <= s.repo.main
    {
      assert s.promotions[i] in s.promotions;
    }
  }

  lemma StepRetains(strategy: Strategy, s: State, step: Step)
    requires Invariant(s) && Retained(s) && StepExtendsMain(strategy, s, step)
    ensures Retained(Apply(strategy, s, step))
  {
    var s' := Apply(strategy, s, step);
    StepGrowsMain(strategy, s, step);
    AncestorsStay(s, s');
    StepRecords(strategy, s, step);
    if s'.promotions == s.promotions {
      RetainedStays(s, s');
    } else {
      assert s'.promotions == s.promotions + [s'.promotions[|s.promotions|]];
      RetainedAdds(s, s', s'.promotions[|s.promotions|]);
    }
  }

  /** While moves by hand only extend main, main only grows: everything that
      was in it, every promoted candidate and every recorded integration stays
      an ancestor. */
  lemma {:induction false} MainOnlyGrows(strategy: Strategy, s: State, steps: seq<Step>)
    requires Invariant(s) && Retained(s) && MovesExtendMain(strategy, s, steps)
    ensures var s' := Run(strategy, s, steps);
            && Retained(s')
            && s.repo.commits <= s'.repo.commits
            && IsAncestor(s'.repo.commits, s.repo.main, s'.repo.main)
            && forall id :: id in s'.rows && s'.rows[id].status == Integrated ==>
                 && s'.rows[id].integration.Some?
                 && IsAncestor(s'.repo.commits, s'.rows[id].candidate, s'.repo.main)
                 && IsAncestor(s'.repo.commits, s'.rows[id].integration.value, s'.repo.main)
    decreases |steps|
  {
    if steps != [] {
      StepKeeps(strategy, s, steps[0]);
      StepRetains(strategy, s, steps[0]);
      StepGrowsMain(strategy, s, steps[0]);
      var s1 := Apply(strategy, s, steps[0]);
      MainOnlyGrows(strategy, s1, steps[1..]);
      var s' := Run(strategy, s1, steps[1..]);
      GrowthKeepsAncestry(s1.repo.commits, s'.repo.commits, s.repo.main, s1.repo.main);
      AncestorsCompose(s'.repo.commits, s.repo.main, s1.repo.main, s'.repo.main);
    } else {
      forall id | id in s.rows && s.rows[id].status == Integrated
        ensures s.rows[id].integration.Some?
        ensures IsAncestor(s.repo.commits, s.rows[id].candidate, s.repo.main)
        ensures IsAncestor(s.repo.commits, s.rows[id].integration.value, s.repo.main)
      {
        assert Landed(s.promotions, id, s.rows[id].request, s.rows[id].integration.value);
      }
    }
  }

  lemma OnlyTheLastMoves(s: State, i: nat, j: nat)
    requires Invariant(s) && Retained(s) && i < j < |s.promotions|
    ensures var ps := s.promotions;
            ps[i].base == ps[j].base || ps[i].request == ps[j].request ==> ps[i].before == ps[i].after
  {
    var p, q := s.promotions[i], s.promotions[j];
    assert p in s.promotions && q in s.promotions;
    assert Faithful(s.repo.commits, p) && Faithful(s.repo.commits, q);
    AncestorIsOlder(s.repo.commits, p.base, p.candidate);
  }

  /** While moves by hand only extend main, no approval moves main twice, and
      no two approvals from one base both move it: whatever crashes and is
      retried, of all promotions from one base only the last can move main. */
  lemma OneMovePerBase(strategy: Strategy, s: State, steps: seq<Step>, i: nat, j: nat)
    requires Start(s) && MovesExtendMain(strategy, s, steps)
    requires i < j < |Run(strategy, s, steps).promotions|
    ensures var ps := Run(strategy, s, steps).promotions;
            ps[i].base == ps[j].base || ps[i].request == ps[j].request ==> ps[i].before == ps[i].after
  {
    assert Retained(s);
    RunKeeps(strategy, s, steps);
    MainOnlyGrows(strategy, s, steps);
    OnlyTheLastMoves(Run(strategy, s, steps), i, j);
  }

  // --------------------------------------------------------- cancellation

  /** Denied, or cancelled with no publish call under way. */
  predicate Fenced(s: State, id: PublicationId) {
    id in s.rows && (s.rows[id].status == Denied || s.rows[id].status == Cancelled) && id !in s.publishers
  }

  lemma StepStaysFenced(strategy: Strategy, s: State, step: Step, id: PublicationId)
    requires Sound(s.repo) && Fenced(s, id)
    ensures var s' := Apply(strategy, s, step);
            Fenced(s', id) && s.promotions <= s'.promotions
            && forall k :: |s.promotions| <= k < |s'.promotions| ==> s'.promotions[k].id != id
  {
  }

  lemma {:induction false} FencedNeverLands(strategy: Strategy, s: State, steps: seq<Step>, id: PublicationId)
    requires Sound(s.repo) && Fenced(s, id)
    ensures var s' := Run(strategy, s, steps);
            Fenced(s', id) && s.promotions <= s'.promotions
            && forall k :: |s.promotions| <= k < |s'.promotions| ==> s'.promotions[k].id != id
    decreases |steps|
  {
    if steps != [] {
      StepStaysFenced(strategy, s, steps[0], id);
      FencedNeverLands(strategy, Apply(strategy, s, steps[0]), steps[1..], id);
    }
  }

  lemma PromoteInFlight(strategy: Strategy, s: State, id: PublicationId)
    requires Sound(s.repo) && id in s.rows && id in s.publishers && s.publishers[id] == Chosen
    ensures var s', row := Apply(strategy, s, Promote(id)), s.rows[id];
            if PromotionFault(s.repo, row.candidate, row.base).None?
            then
              && s'.rows == s.rows && s'.repo == AfterPromotion(s.repo, row.candidate)
              && s'.publishers == s.publishers[id := Promoted(s'.repo.main)]
              && s'.promotions == s.promotions
                   + [Promotion(id, row.request, row.base, row.candidate, s.repo.main, s'.repo.main)]
            else s' == AfterPublishFailed(s, id,
              if PromotionFault(s.repo, row.candidate, row.base) == Some(MainChanged) then Parked else Pending)
  {
  }

  lemma CancelInFlight(strategy: Strategy, s: State, id: PublicationId)
    requires Sound(s.repo) && HasStatus(s, id, Applying)
    ensures var s' := Apply(strategy, s, RequestCancellation({s.rows[id].workspace}));
            && s'.repo == s.repo && s'.promotions == s.promotions && s'.publishers == s.publishers
            && id in s'.rows && s'.rows[id] == s.rows[id].(status := Cancelling)
  {
  }

  lemma RecordCancelled(strategy: Strategy, s: State, id: PublicationId)
    requires Sound(s.repo) && HasStatus(s, id, Cancelling)
    ensures var s' := Apply(strategy, s, Record(id));
            && s'.repo == s.repo && s'.promotions == s.promotions && s'.rows == s.rows
            && (id in s'.publishers ==> s'.publishers[id] == Chosen && id in s.publishers)
  {
  }

  /** A cancellation requested while the publication is being applied does not
      keep its candidate out of main: it lands exactly when the promotion is
      not refused, although the row can no longer become integrated. */
  lemma CancellationMissesFlight(strategy: Strategy, s: State, id: PublicationId)
    requires Sound(s.repo) && HasStatus(s, id, Applying)
    requires id in s.publishers && s.publishers[id] == Chosen
    ensures var row := s.rows[id];
            var s1 := Apply(strategy, s, RequestCancellation({row.workspace}));
            var s' := Apply(strategy, Apply(strategy, s1, Promote(id)), Record(id));
            && HasStatus(s', id, Cancelling) && id !in s'.publishers
            && (s'.promotions != s.promotions <==> PromotionFault(s.repo, row.candidate, row.base).None?)
            && (IsAncestor(s'.repo.commits, row.candidate, s'.repo.main) <==>
                  PromotionFault(s.repo, row.candidate, row.base).None?
                  || IsAncestor(s.repo.commits, row.candidate, s.repo.main))
  {
    var row := s.rows[id];
    var s1 := Apply(strategy, s, RequestCancellation({row.workspace}));
    var s2 := Apply(strategy, s1, Promote(id));
    CancelInFlight(strategy, s, id);
    PromoteInFlight(strategy, s1, id);
    RecordCancelled(strategy, s2, id);
    if PromotionFault(s.repo, row.candidate, row.base).None? {
      AfterPromotionGrows(s.repo, row.candidate);
      assert |s2.promotions| > |s.promotions|;
    }
  }

  // ---------------------------------------------------------------- crash

  lemma RestartInFlight(strategy: Strategy, s: State, id: PublicationId)
    requires Sound(s.repo) && HasStatus(s, id, Applying)
    ensures var s1 := Apply(strategy, s, Crash);
            var s' := Apply(strategy, Apply(strategy, s1, RecoverApplying(id)), MarkApplying(id));
            && s'.repo == s.repo && s'.promotions == s.promotions
            && id in s'.rows && s'.rows[id] == s.rows[id] && id in s'.publishers && s'.publishers[id] == Chosen
  {
    var s1 := Apply(strategy, s, Crash);
    assert s1.rows == s.rows && s1.publishers == map[] && s1.repo == s.repo && s1.promotions == s.promotions;
    var s2 := Apply(strategy, s1, RecoverApplying(id));
    assert s2 == SetStatus(s1, id, Pending);
    assert Enabled(strategy, s2, MarkApplying(id));
    assert s2.rows[id].(status := Applying) == s.rows[id];
  }

  /** What is promoted stays promoted, and main does not fall behind it. */
  lemma PromotionsOutlast(strategy: Strategy, s: State, steps: seq<Step>, p: Promotion)
    requires Invariant(s) && Retained(s) && MovesExtendMain(strategy, s, steps) && p in s.promotions
    ensures Invariant(Run(strategy, s, steps)) && Retained(Run(strategy, s, steps))
    ensures s.promotions <= Run(strategy, s, steps).promotions
    ensures p.after <= Run(strategy, s, steps).repo.main
  {
    RunKeeps(strategy, s, steps);
    MainOnlyGrows(strategy, s, steps);
    RunRecords(strategy, s, steps);
    var s' := Run(strategy, s, steps);
    assert p in s'.promotions;
    AncestorIsOlder(s'.repo.commits, p.after, s'.repo.main);
  }

  lemma {:induction false} RunRecords(strategy: Strategy, s: State, steps: seq<Step>)
    requires Sound(s.repo)
    ensures s.promotions <= Run(strategy, s, steps).promotions
    decreases |steps|
  {
    if steps != [] {
      StepRecords(strategy, s, steps[0]);
      RunRecords(strategy, Apply(strategy, s, steps[0]), steps[1..]);
    }
  }

  /** Whatever happens between a promotion and its retry, the process's death
      before the row was recorded included: while moves by hand only extend
      main, an approval that moved main is never promoted again, and trying it
      parks the row as stale, where the Project is on main and clean. */
  lemma LostRecordMovesMainOnce(strategy: Strategy, s: State, id: PublicationId, steps: seq<Step>)
    requires Invariant(s) && Retained(s) && HasStatus(s, id, Applying)
    requires id in s.publishers && s.publishers[id] == Chosen
    requires PromotionFault(s.repo, s.rows[id].candidate, s.rows[id].base).None?
    requires s.rows[id].candidate != s.rows[id].base
    requires MovesExtendMain(strategy, Apply(strategy, s, Promote(id)), steps)
    ensures var s1 := Apply(strategy, s, Promote(id));
            var s' := Run(strategy, s1, steps);
            && s1.repo.main != s.repo.main && s1.promotions <= s'.promotions
            && (forall k :: |s1.promotions| <= k < |s'.promotions| ==>
                  s'.promotions[k].request != s.rows[id].request)
            && (HasStatus(s', id, Applying) && s'.rows[id].request == s.rows[id].request
                && id in s'.publishers && s'.publishers[id] == Chosen && s'.repo.onMain && s'.repo.clean ==>
                  var s2 := Apply(strategy, s', Promote(id));
                  && s2.repo == s'.repo && s2.promotions == s'.promotions
                  && HasStatus(s2, id, Parked) && id !in s2.publishers)
  {
    var row, s1 := s.rows[id], Apply(strategy, s, Promote(id));
    PromoteInFlight(strategy, s, id);
    StepKeeps(strategy, s, Promote(id));
    StepRetains(strategy, s, Promote(id));
    var n := |s.promotions|;
    var p := s1.promotions[n];
    assert p.before != p.after && p.request == row.request;
    var s' := Run(strategy, s1, steps);
    PromotionsOutlast(strategy, s1, steps, p);
    forall k | |s1.promotions| <= k < |s'.promotions|
      ensures s'.promotions[k].request != row.request
    {
      assert s'.promotions[n] == p;
      OnlyTheLastMoves(s', n, k);
    }
    if HasStatus(s', id, Applying) && s'.rows[id].request == row.request
       && id in s'.publishers && s'.publishers[id] == Chosen && s'.repo.onMain && s'.repo.clean
    {
      assert p in s'.promotions && s'.rows[id].base == p.base;
      AncestorIsOlder(s.repo.commits, row.base, row.candidate);
      assert PromotionFault(s'.repo, s'.rows[id].candidate, s'.rows[id].base) == Some(MainChanged);
      PromoteInFlight(strategy, s', id);
    }
  }

  /** An approval whose candidate is its base moves nothing, however often it is
      promoted. */
  lemma EmptyPromotionMovesNothing(strategy: Strategy, s: State, id: PublicationId)
    requires Sound(s.repo) && id in s.rows && s.rows[id].candidate == s.rows[id].base
    ensures Apply(strategy, s, Promote(id)).repo == s.repo
  {
    if Enabled(strategy, s, Promote(id)) {
      PromoteInFlight(strategy, s, id);
    }
  }

  /** Synchronizing a worktree whose candidate is already in main never
      conflicts, and the new candidate changes nothing in main. */
  lemma SyncAfterLanding(strategy: Strategy, repo: Repository, w: WorkspaceId, candidate: nat)
    requires Sound(repo) && repo.onMain && repo.clean
    requires w in repo.worktrees && repo.worktrees[w].head == candidate
    requires IsAncestor(repo.commits, candidate, repo.main) && candidate != repo.main
    ensures SyncFault(strategy, repo, w, candidate).None?
    ensures var repo' := AfterSync(strategy, repo, w);
            && w in repo'.worktrees && Sound(repo')
            && repo'.main == repo.main && repo'.worktrees[w].head != candidate
            && Contains(repo'.commits, repo'.main, repo'.worktrees[w].head)
            && ChangedPaths(repo'.commits[repo'.main].tree,
                            repo'.commits[repo'.worktrees[w].head].tree) == {}
  {
    MergeOfDescendant(strategy, repo.commits, candidate, repo.main);
    AfterSyncGrows(strategy, repo, w, candidate);
    if IsAncestor(repo.commits, repo.main, candidate) {
      AncestorIsOlder(repo.commits, repo.main, candidate);
      AncestorIsOlder(repo.commits, candidate, repo.main);
      assert false;
    }
  }

  // --------------------------------------------------------------- worker

  /** The states that a schedule passes through. */
  ghost predicate Passes(strategy: Strategy, past: seq<State>, steps: seq<Step>) {
    && |past| == |steps| + 1
    && forall k :: 0 <= k < |steps| ==>
         Sound(past[k].repo) && past[k + 1] == Apply(strategy, past[k], steps[k])
  }

  lemma {:induction false} PassesIsRun(strategy: Strategy, past: seq<State>, steps: seq<Step>)
    requires Passes(strategy, past, steps) && Sound(past[0].repo)
    ensures past[|steps|] == Run(strategy, past[0], steps)
    decreases |steps|
  {
    if steps != [] {
      assert past[0 + 1] == Apply(strategy, past[0], steps[0]);
      PassesIsRun(strategy, past[1..], steps[1..]);
    }
  }

  predicate Blocking(row: Publication, scope: Scope) {
    row.scope == scope
    && (row.status == Pending || row.status == Applying || row.status == Conflicted
        || row.status == Cancelling || row.status == Uncertain)
  }

  predicate NotAfter(a: Place, b: Place) {
    a.layer < b.layer
    || (a.layer == b.layer &&
        (a.dispatchOrder < b.dispatchOrder
         || (a.dispatchOrder == b.dispatchOrder && a.subtask <= b.subtask)))
  }

  /** The row belongs to the generation and holds up those behind it. */
  predicate HoldsUp(row: Publication, scope: Scope) {
    row.scope == scope && row.status in {Pending, Applying, Conflicted, Cancelling, Uncertain}
  }

  /** Of the rows that hold up others: least by topology layer, then by dispatch
      order, then by Subtask. */
  ghost predicate IsFirstInLine(rows: Rows, scope: Scope, id: PublicationId) {
    && id in rows && HoldsUp(rows[id], scope)
    && forall other :: other in rows && HoldsUp(rows[other], scope) ==>
         var a, b := rows[id].place, rows[other].place;
         && a.layer <= b.layer
         && (a.layer == b.layer ==> a.dispatchOrder <= b.dispatchOrder)
         && (a.layer == b.layer && a.dispatchOrder == b.dispatchOrder ==> a.subtask <= b.subtask)
  }

  predicate IsNextBlocking(rows: Rows, scope: Scope, id: PublicationId) {
    id in rows && Blocking(rows[id], scope)
    && forall other :: other in rows && Blocking(rows[other], scope) ==> NotAfter(rows[id].place, rows[other].place)
  }

  function PendingIds(rows: Rows): set<PublicationId> {
    set id | id in rows && rows[id].status == Pending
  }

  /** No row starts to block, and rows keep their place and scope. */
  ghost predicate OnlySettles(before: Rows, after: Rows) {
    before.Keys == after.Keys
    && forall id :: id in before ==>
         && after[id].place == before[id].place && after[id].scope == before[id].scope
         && (after[id].status == Pending ==> before[id].status == Pending)
         && (after[id].status == Applying ==> before[id].status in {Pending, Applying})
         && (after[id].status == Cancelling ==> before[id].status in {Applying, Uncertain, Cancelling})
         && (after[id].status in {Conflicted, Uncertain} ==> before[id].status == after[id].status)
  }

  datatype Outcome =
    | OutcomeIntegrated(id: PublicationId, integrationCommit: nat)
    | OutcomeStale(id: PublicationId, synchronized: Option<nat>)
    | OutcomeCancelled(id: PublicationId)

  class WorkspacePublicationWorker {
    const strategy: Strategy
    /** Publications whose task or subtask is cancelled or missing. */
    const cancelled: set<PublicationId>
    /** Publications whose source attempt has its receipt. */
    const receipted: set<PublicationId>
    var state: State
    ghost const initial: State
    ghost var past: seq<State>
    ghost var steps: seq<Step>

    /** What the worker did so far is a schedule of the machine's steps. */
    ghost predicate Valid()
      reads this
    {
      && Sound(state.repo)
      && Passes(strategy, past, steps) && past[0] == initial && past[|steps|] == state
    }

    lemma ValidIsRun()
      requires Valid() && Invariant(initial)
      ensures state == Run(strategy, initial, steps) && Invariant(state)
    {
      PassesIsRun(strategy, past, steps);
      RunKeeps(strategy, initial, steps);
    }

    lemma RowIsContained(id: PublicationId)
      requires Valid() && Invariant(initial) && id in state.rows
      ensures Contains(state.repo.commits, state.rows[id].base, state.rows[id].candidate)
    {
      ValidIsRun();
    }

    constructor (strategy: Strategy, cancelled: set<PublicationId>, receipted: set<PublicationId>, state: State)
      requires Sound(state.repo)
      ensures Valid() && this.state == state && initial == state && steps == []
      ensures this.strategy == strategy && this.cancelled == cancelled && this.receipted == receipted
    {
      this.strategy := strategy;
      this.cancelled := cancelled;
      this.receipted := receipted;
      this.state := state;
      initial := state;
      past := [state];
      steps := [];
    }

    method Take(step: Step)
      requires Valid()
      modifies this
      ensures Valid() && state == Apply(strategy, old(state), step)
    {
      state := Apply(strategy, state, step);
      past := past + [state];
      steps := steps + [step];
    }

    method FindNextBlocking(scope: Scope) returns (next: Option<PublicationId>)
      ensures next.None? ==> forall id :: id in state.rows ==> !Blocking(state.rows[id], scope)
      ensures next.Some? ==> IsNextBlocking(state.rows, scope, next.value)
      ensures next.Some? ==> IsFirstInLine(state.rows, scope, next.value)
      ensures next.None? <==> forall id :: id in state.rows ==> !HoldsUp(state.rows[id], scope)
    {
      next := None;
      var rest := state.rows.Keys;
      while rest != {}
        invariant rest <= state.rows.Keys
        invariant next.None? ==>
          forall id :: id in state.rows && id !in rest ==> !Blocking(state.rows[id], scope)
        invariant next.Some? ==>
          && next.value in state.rows && Blocking(state.rows[next.value], scope)
          && forall id :: id in state.rows && id !in rest && Blocking(state.rows[id], scope) ==>
               NotAfter(state.rows[next.value].place, state.rows[id].place)
        decreases |rest|
      {
        PickOne(rest);
        var id :| id in rest;
        rest := rest - {id};
        if Blocking(state.rows[id], scope)
           && (next.None? || !NotAfter(state.rows[next.value].place, state.rows[id].place)) {
          next := Some(id);
        }
      }
      assert forall id :: id in state.rows ==> (HoldsUp(state.rows[id], scope) <==> Blocking(state.rows[id], scope));
    }

    method CancelPublication(id: PublicationId)
      requires Valid() && HasStatus(state, id, Pending)
      modifies this
      ensures Valid() && OnlySettles(old(state).rows, state.rows)
      ensures HasStatus(state, id, Cancelled)
      ensures state.repo == old(state).repo && state.publishers == old(state).publishers
    {
      Take(RequestCancellation({state.rows[id].workspace}));
    }

    /** Creates the worktree at main when it is missing. */
    method EnsureWorktree(w: WorkspaceId)
      requires Valid()
      modifies this
      ensures Valid() && state == old(state).(repo := state.repo)
      ensures w in state.repo.worktrees
      ensures state.repo == old(state).repo.(worktrees := state.repo.worktrees)
    {
      if w !in state.repo.worktrees {
        Take(ChangeWorktree(w, Some(Worktree(state.repo.main, true, true))));
      }
    }

    method RecordIntegration(id: PublicationId) returns (r: Outcome)
      requires Valid() && HasStatus(state, id, Applying)
      requires id in state.publishers && state.publishers[id] == Promoted(state.repo.main)
      modifies this
      ensures Valid() && HasStatus(state, id, Integrated)
      ensures state.rows.Keys == old(state).rows.Keys
      ensures forall other :: other in state.rows && other != id ==> state.rows[other] == old(state).rows[other]
      ensures state.rows[id] == old(state).rows[id].(status := Integrated, integration := Some(state.repo.main))
      ensures state.publishers == old(state).publishers - {id}
      ensures state.repo.main == old(state).repo.main && state.rows[id].workspace !in state.repo.worktrees
      ensures r == OutcomeIntegrated(id, state.repo.main)
    {
      Take(Record(id));
      Take(ChangeWorktree(state.rows[id].workspace, None));
      return OutcomeIntegrated(id, state.repo.main);
    }

    method SynchronizeStale(id: PublicationId) returns (r: Outcome)
      requires Valid() && HasStatus(state, id, Parked)
      modifies this
      ensures Valid() && state.rows == old(state).rows && state.publishers == old(state).publishers
      ensures r.OutcomeStale? && r.id == id && state.repo.main == old(state).repo.main
      ensures r.synchronized.Some? <==>
                SyncFault(strategy, old(state).repo, state.rows[id].workspace, state.rows[id].candidate).None?
      ensures r.synchronized.Some? ==>
                && IsAncestor(state.repo.commits, state.rows[id].candidate, r.synchronized.value)
                && IsAncestor(state.repo.commits, state.repo.main, r.synchronized.value)
    {
      var row := state.rows[id];
      if SyncFault(strategy, state.repo, row.workspace, row.candidate).Some? {
        return OutcomeStale(id, None);
      }
      AfterSyncGrows(strategy, state.repo, row.workspace, row.candidate);
      assert Enabled(strategy, state, Synchronize(id, row.workspace, row.candidate));
      Take(Synchronize(id, row.workspace, row.candidate));
      return OutcomeStale(id, Some(state.repo.worktrees[row.workspace].head));
    }

    /** Marks the row and readies its worktree; false is an exception. */
    method BeginPublish(id: PublicationId) returns (ok: bool)
      requires Valid() && HasStatus(state, id, Pending) && id !in state.publishers
      modifies this
      ensures Valid() && ok == (old(state).repo.onMain && old(state).repo.clean)
      ensures state.rows == old(state).rows[id := old(state).rows[id].(status := Applying)]
      ensures state.publishers == if ok then old(state).publishers[id := Chosen] else old(state).publishers
      ensures state.repo == old(state).repo.(worktrees := state.repo.worktrees)
      ensures if ok then state.rows[id].workspace in state.repo.worktrees else state.repo == old(state).repo
    {
      Take(MarkApplying(id));
      if !state.repo.onMain || !state.repo.clean {
        Take(Abandon(id));
        return false;
      }
      EnsureWorktree(state.rows[id].workspace);
      return true;
    }

    /** Promotes; false when main is no longer the approved one. */
    method PromoteRow(id: PublicationId) returns (promoted: bool)
      requires Valid() && HasStatus(state, id, Applying) && id in state.publishers && state.publishers[id] == Chosen
      requires Contains(state.repo.commits, state.rows[id].base, state.rows[id].candidate)
      requires state.repo.onMain && state.repo.clean
      modifies this
      ensures Valid() && promoted == (old(state).repo.main == old(state).rows[id].base)
      ensures if promoted then
                && state.rows == old(state).rows
                && state.repo == AfterPromotion(old(state).repo, old(state).rows[id].candidate)
                && state.publishers == old(state).publishers[id := Promoted(state.repo.main)]
              else
                && state.rows == old(state).rows[id := old(state).rows[id].(status := Parked)]
                && state.repo == old(state).repo && state.publishers == old(state).publishers - {id}
    {
      promoted := state.repo.main == state.rows[id].base;
      PromoteChosen(strategy, state, id);
      Take(Promote(id));
    }

    /** The part of `publish` after the row is marked and its worktree exists. */
    method PublishBegun(id: PublicationId) returns (r: Outcome)
      requires Valid() && HasStatus(state, id, Applying) && id in state.publishers && state.publishers[id] == Chosen
      requires Contains(state.repo.commits, state.rows[id].base, state.rows[id].candidate)
      requires state.repo.onMain && state.repo.clean
      modifies this
      ensures Valid() && state.publishers == old(state).publishers - {id}
      ensures state.rows.Keys == old(state).rows.Keys && state.rows[id].place == old(state).rows[id].place
      ensures forall other :: other in state.rows && other != id ==> state.rows[other] == old(state).rows[other]
      ensures state.rows[id].scope == old(state).rows[id].scope
      ensures var row := old(state).rows[id];
              if old(state).repo.main == row.base then
                && r == OutcomeIntegrated(id, state.repo.main) && HasStatus(state, id, Integrated)
                && state.repo.main == AfterPromotion(old(state).repo, row.candidate).main
                && row.workspace !in state.repo.worktrees
              else
                && r.OutcomeStale? && r.id == id && HasStatus(state, id, Parked)
                && state.repo.main == old(state).repo.main
                && (r.synchronized.Some? ==>
                      && IsAncestor(state.repo.commits, row.candidate, r.synchronized.value)
                      && IsAncestor(state.repo.commits, state.repo.main, r.synchronized.value))
    {
      var promoted := PromoteRow(id);
      if !promoted {
        r := SynchronizeStale(id);
      } else {
        r := RecordIntegration(id);
      }
    }

    /** Publishes one approved row; None is an exception of the source. */
    method Publish(id: PublicationId) returns (r: Option<Outcome>)
      requires Valid() && HasStatus(state, id, Pending) && id !in state.publishers
      requires Contains(state.repo.commits, state.rows[id].base, state.rows[id].candidate)
      modifies this
      ensures Valid() && OnlySettles(old(state).rows, state.rows)
      ensures state.publishers == old(state).publishers
      ensures r.Some? ==> r.value.id == id && !HasStatus(state, id, Pending)
      ensures id in cancelled ==>
                r == Some(OutcomeCancelled(id)) && HasStatus(state, id, Cancelled) && state.repo == old(state).repo
      ensures id !in cancelled && id !in receipted ==> r == None && state == old(state)
      ensures id !in cancelled && id in receipted ==>
                var row := old(state).rows[id];
                if !old(state).repo.onMain || !old(state).repo.clean then
                  r == None && state.repo == old(state).repo && HasStatus(state, id, Applying)
                else if old(state).repo.main == row.base then
                  && r == Some(OutcomeIntegrated(id, state.repo.main)) && HasStatus(state, id, Integrated)
                  && state.repo.main == AfterPromotion(old(state).repo, row.candidate).main
                  && row.workspace !in state.repo.worktrees
                else
                  && r.Some? && r.value.OutcomeStale? && HasStatus(state, id, Parked)
                  && state.repo.main == old(state).repo.main
                  && (r.value.synchronized.Some? ==>
                        && IsAncestor(state.repo.commits, row.candidate, r.value.synchronized.value)
                        && IsAncestor(state.repo.commits, state.repo.main, r.value.synchronized.value))
    {
      if id in cancelled {
        CancelPublication(id);
        return Some(OutcomeCancelled(id));
      }
      if id !in receipted { return None; }
      var begun := BeginPublish(id);
      if !begun { return None; }
      var outcome := PublishBegun(id);
      return Some(outcome);
    }

    /** `recoverApplying`: interrupted rows of tasks that are not cancelled
        become pending again. */
    method RecoverInterrupted(scope: Scope)
      requires Valid()
      requires forall id :: id in state.publishers && id in state.rows ==> state.rows[id].scope != scope
      modifies this
      ensures Valid() && state == old(state).(rows := state.rows) && state.rows.Keys == old(state).rows.Keys
      ensures forall id :: id in state.rows ==>
                state.rows[id] == if old(state).rows[id].scope == scope && id !in cancelled
                                       && old(state).rows[id].status == Applying
                                  then old(state).rows[id].(status := Pending) else old(state).rows[id]
    {
      var rest := state.rows.Keys;
      while rest != {}
        invariant Valid() && state == old(state).(rows := state.rows) && state.rows.Keys == old(state).rows.Keys
        invariant rest <= state.rows.Keys
        invariant forall id :: id in rest ==> state.rows[id] == old(state).rows[id]
        invariant forall id :: id in state.rows && id !in rest ==>
                    state.rows[id] == if old(state).rows[id].scope == scope && id !in cancelled
                                           && old(state).rows[id].status == Applying
                                      then old(state).rows[id].(status := Pending) else old(state).rows[id]
        decreases |rest|
      {
        PickOne(rest);
        var id :| id in rest;
        rest := rest - {id};
        if state.rows[id].scope == scope && id !in cancelled && state.rows[id].status == Applying {
          Take(RecoverApplying(id));
        }
      }
    }

    /** Publishes pending rows in order, until none or another row blocks. */
    method DrainSerial(scope: Scope) returns (outcomes: seq<Outcome>, threw: bool)
      requires Valid() && Invariant(initial)
      requires forall id :: id in state.publishers && id in state.rows ==> state.rows[id].scope != scope
      modifies this
      ensures Valid() && state.publishers == old(state.publishers)
      ensures state.rows.Keys == old(state).rows.Keys
      ensures forall k :: 0 <= k < |outcomes| ==> outcomes[k].id in state.rows
      ensures forall i, j :: 0 <= i < j < |outcomes| ==>
                NotAfter(state.rows[outcomes[i].id].place, state.rows[outcomes[j].id].place)
      ensures ByLayer(state.rows, scope, outcomes)
      ensures !threw ==>
                || (forall id :: id in state.rows ==> !HoldsUp(state.rows[id], scope))
                || (exists head :: IsFirstInLine(state.rows, scope, head) && state.rows[head].status != Pending)
    {
      RecoverInterrupted(scope);
      outcomes := [];
      while true
        invariant Valid() && state.publishers == old(state.publishers)
        invariant state.rows.Keys == old(state).rows.Keys
        invariant forall id :: id in state.publishers && id in state.rows ==> state.rows[id].scope != scope
        invariant InOrder(state.rows, scope, outcomes)
        decreases PendingIds(state.rows)
      {
        InOrderIsByLayer(state.rows, scope, outcomes);
        var next := FindNextBlocking(scope);
        if next.None? || state.rows[next.value].status != Pending { return outcomes, false; }
        RowIsContained(next.value);
        ghost var before := state.rows;
        var outcome := Publish(next.value);
        if outcome.None? {
          InOrderStays(before, state.rows, scope, outcomes);
          InOrderIsByLayer(state.rows, scope, outcomes);
          return outcomes, true;
        }
        PendingShrinks(before, state.rows, next.value);
        InOrderExtends(before, state.rows, scope, outcomes, outcome.value);
        outcomes := outcomes + [outcome.value];
      }
    }
  }

  /** Outcomes come by layers, lowest first, and none before a row of a lower
      layer that still holds up others. */
  predicate ByLayer(rows: Rows, scope: Scope, outcomes: seq<Outcome>) {
    && (forall k :: 0 <= k < |outcomes| ==> outcomes[k].id in rows)
    && (forall i, j :: 0 <= i < j < |outcomes| ==>
          rows[outcomes[i].id].place.layer <= rows[outcomes[j].id].place.layer)
    && (forall k, id :: 0 <= k < |outcomes| && id in rows && HoldsUp(rows[id], scope) ==>
          rows[outcomes[k].id].place.layer <= rows[id].place.layer)
  }

  lemma InOrderIsByLayer(rows: Rows, scope: Scope, outcomes: seq<Outcome>)
    requires InOrder(rows, scope, outcomes)
    ensures ByLayer(rows, scope, outcomes)
  {
  }

  /** Where a Subtask's layer is above those of the Subtasks it depends on, no
      publication overtakes one that it depends on: neither one that comes
      later in the drain nor one that is left. */
  lemma NoneOvertakes(rows: Rows, scope: Scope, outcomes: seq<Outcome>,
                      dependencies: map<PublicationId, set<PublicationId>>,
                      i: nat, id: PublicationId)
    requires ByLayer(rows, scope, outcomes) && i < |outcomes|
    requires outcomes[i].id in dependencies && id in dependencies[outcomes[i].id] && id in rows
    requires forall a, b :: a in dependencies && b in dependencies[a] && a in rows && b in rows ==>
               rows[b].place.layer < rows[a].place.layer
    ensures !HoldsUp(rows[id], scope)
    ensures forall j :: i <= j < |outcomes| ==> outcomes[j].id != id
  {
    assert rows[id].place.layer < rows[outcomes[i].id].place.layer;
  }

  /** Outcomes come in publication order, and before every row still blocking. */
  predicate InOrder(rows: Rows, scope: Scope, outcomes: seq<Outcome>) {
    && (forall k :: 0 <= k < |outcomes| ==> outcomes[k].id in rows)
    && (forall i, j :: 0 <= i < j < |outcomes| ==>
          NotAfter(rows[outcomes[i].id].place, rows[outcomes[j].id].place))
    && (forall k, id :: 0 <= k < |outcomes| && id in rows && Blocking(rows[id], scope) ==>
          NotAfter(rows[outcomes[k].id].place, rows[id].place))
  }

  lemma InOrderStays(before: Rows, after: Rows, scope: Scope, outcomes: seq<Outcome>)
    requires InOrder(before, scope, outcomes) && OnlySettles(before, after)
    ensures InOrder(after, scope, outcomes)
  {
    forall id | id in after && Blocking(after[id], scope)
      ensures Blocking(before[id], scope)
    {
    }
  }

  lemma InOrderExtends(before: Rows, after: Rows, scope: Scope, outcomes: seq<Outcome>, outcome: Outcome)
    requires InOrder(before, scope, outcomes) && OnlySettles(before, after)
    requires IsNextBlocking(before, scope, outcome.id)
    ensures InOrder(after, scope, outcomes + [outcome])
  {
    InOrderStays(before, after, scope, outcomes);
    forall id | id in after && Blocking(after[id], scope)
      ensures NotAfter(after[outcome.id].place, after[id].place)
    {
      assert Blocking(before[id], scope);
    }
  }

  lemma PendingShrinks(before: Rows, after: Rows, id: PublicationId)
    requires OnlySettles(before, after)
    requires id in before && before[id].status == Pending && after[id].status != Pending
    ensures PendingIds(after) < PendingIds(before)
  {
    assert id in PendingIds(before) && id !in PendingIds(after);
  }

  lemma PromoteChosen(strategy: Strategy, s: State, id: PublicationId)
    requires Sound(s.repo) && HasStatus(s, id, Applying) && id in s.publishers && s.publishers[id] == Chosen
    requires Contains(s.repo.commits, s.rows[id].base, s.rows[id].candidate)
    requires s.repo.onMain && s.repo.clean
    ensures var row, s' := s.rows[id], Apply(strategy, s, Promote(id));
            if s.repo.main == row.base then
              && s'.rows == s.rows && s'.repo == AfterPromotion(s.repo, row.candidate)
              && s'.publishers == s.publishers[id := Promoted(s'.repo.main)]
            else s' == SetStatus(s, id, Parked).(publishers := s.publishers - {id})
  {
    PromoteInFlight(strategy, s, id);
  }

  lemma PickOne(s: set<PublicationId>)
    requires s != {}
    ensures exists id :: id in s
  {
    if forall id: PublicationId :: id !in s {
      EmptyWithoutMembers(s);
    }
  }
}
