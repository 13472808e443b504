/** The tiered removals. */
module Removal {
  // Worktree directories come first, then branches, then the app-support directory, and the sidebar entry last, only
  // when every opted-in artifact step went through.

  import opened Options
  import opened ProjectModel
  import opened WorktreeGit

  datatype ProjectRemovalOptions = ProjectRemovalOptions(
    removeAppSupportDir: bool, removeWorktreeDir: map<nat, bool>, removeBranch: map<nat, bool>, force: bool)
  {
    predicate WantsWorktree(id: nat) { id in removeWorktreeDir && removeWorktreeDir[id] }
    predicate WantsBranch(id: nat) { id in removeBranch && removeBranch[id] }
  }

  datatype WorkstreamRemovalOptions = WorkstreamRemovalOptions(removeWorktreeDir: bool, removeBranch: bool, force: bool)

  /** The app-support directory of a project, an injective rendering of its identifier. */
  function AppSupportDirectory(id: nat): string {
    "app-support/" + seq(id, _ => '1')
  }

  /** Where step 2 probes for a branch: the workstream's own root, as written, or the project's, as described. */
  datatype Probe = EffectiveRoot | ProjectRoot

  function ProbeRoot(ws: Workstream, projectPath: string, probe: Probe): string {
    if probe.EffectiveRoot? then ws.EffectiveRoot(projectPath) else projectPath
  }

  // ---------------------------------------------------------------------------------------------------
  // The steps, one workstream at a time
  // ---------------------------------------------------------------------------------------------------

  datatype Outcome = Outcome(world: World, failures: seq<RemovalFailure>)

  function Fail(o: Outcome, w: World, artifact: string, result: Option<Reason>): Outcome {
    Outcome(w, if result.Some? then o.failures + [RemovalFailure(artifact, result.value)] else o.failures)
  }

  predicate OptedWorktree(ws: Workstream, wanted: bool) {
    wanted && ws.worktreePath.Some? && !ws.isDefault
  }

  function WorktreeStep(o: Outcome, ws: Workstream, wanted: bool, force: bool): Outcome {
    if !OptedWorktree(ws, wanted) || ws.worktreePath.value !in o.world.dirs then o
    else
      var (w, result) := RemoveWorktree(o.world, ws.worktreePath.value, force);
      Fail(o, w, ws.worktreePath.value, result)
  }

  function BranchStep(o: Outcome, ws: Workstream, wanted: bool, projectPath: string, probe: Probe): Outcome {
    if !(wanted && ws.branch.Some?) then o
    else
      var root := ProbeRoot(ws, projectPath, probe);
      if !BranchExists(o.world, root, ws.branch.value) then o
      else
        var (w, result) := DeleteBranch(o.world, root, ws.branch.value);
        Fail(o, w, ws.branch.value, result)
  }

  function AppSupportStep(o: Outcome, wanted: bool, dir: string): Outcome {
    if !wanted || dir !in o.world.dirs then o
    else
      var (w, result) := RemoveItem(o.world, dir);
      Fail(o, w, dir, result)
  }

  function WorktreeSteps(o: Outcome, wss: seq<Workstream>, options: ProjectRemovalOptions): Outcome
    decreases |wss|
  {
    if wss == [] then o
    else
      var n := |wss| - 1;
      WorktreeStep(WorktreeSteps(o, wss[..n], options), wss[n], options.WantsWorktree(wss[n].id), options.force)
  }

  function BranchSteps(o: Outcome, wss: seq<Workstream>, options: ProjectRemovalOptions, path: string,
                       probe: Probe): Outcome
    decreases |wss|
  {
    if wss == [] then o
    else
      var n := |wss| - 1;
      BranchStep(BranchSteps(o, wss[..n], options, path, probe), wss[n], options.WantsBranch(wss[n].id), path, probe)
  }

  /** The world after step 1, in which step 2 probes. */
  function AfterWorktrees(w: World, p: Project, options: ProjectRemovalOptions): Outcome {
    WorktreeSteps(Outcome(w, []), p.workstreams, options)
  }

  function AfterBranches(w: World, p: Project, options: ProjectRemovalOptions, probe: Probe): Outcome {
    BranchSteps(AfterWorktrees(w, p, options), p.workstreams, options, p.path, probe)
  }

  /** Steps 1 to 3 of removing a project. */
  function RemoveArtifacts(w: World, p: Project, options: ProjectRemovalOptions, probe: Probe): Outcome {
    AppSupportStep(AfterBranches(w, p, options, probe), options.removeAppSupportDir, AppSupportDirectory(p.id))
  }

  /** Steps 1 and 2 of removing one workstream. */
  function RemoveWorkstreamArtifacts(w: World, ws: Workstream, path: string, options: WorkstreamRemovalOptions,
                                     probe: Probe): Outcome
  {
    BranchStep(WorktreeStep(Outcome(w, []), ws, options.removeWorktreeDir, options.force),
               ws, options.removeBranch, path, probe)
  }

  // ---------------------------------------------------------------------------------------------------
  // Growth of the outcome
  // ---------------------------------------------------------------------------------------------------

  predicate Named(failures: seq<RemovalFailure>, artifact: string) {
    exists i :: 0 <= i < |failures| && failures[i].artifact == artifact
  }

  /** Something of that name was still there. */
  predicate Present(w: World, artifact: string) {
    artifact in w.dirs || artifact in w.branches
  }

  /** From one outcome to a later one: the world shrinks, failures are added, and only for what was present. */
  ghost predicate Later(o: Outcome, t: Outcome) {
    && Shrunk(o.world, t.world)
    && o.failures <= t.failures
    && forall i :: |o.failures| <= i < |t.failures| ==> Present(o.world, t.failures[i].artifact)
  }

  lemma {:induction false} StepsAreLater(o: Outcome, ws: Workstream, wanted: bool, force: bool, path: string,
                                         probe: Probe)
    ensures Later(o, WorktreeStep(o, ws, wanted, force))
    ensures Later(o, BranchStep(o, ws, wanted, path, probe))
    ensures Later(o, AppSupportStep(o, wanted, path))
  {
    WorktreeStepIsLater(o, ws, wanted, force);
    BranchStepIsLater(o, ws, wanted, path, probe);
  }

  lemma {:induction false} WorktreeStepIsLater(o: Outcome, ws: Workstream, wanted: bool, force: bool)
    ensures Later(o, WorktreeStep(o, ws, wanted, force))
  {
  }

  lemma {:induction false} BranchStepIsLater(o: Outcome, ws: Workstream, wanted: bool, path: string, probe: Probe)
    ensures Later(o, BranchStep(o, ws, wanted, path, probe))
  {
  }

  lemma {:induction false} WorktreeStepsLater(o: Outcome, wss: seq<Workstream>, options: ProjectRemovalOptions)
    ensures Later(o, WorktreeSteps(o, wss, options))
    decreases |wss|
  {
    if wss != [] {
      var n := |wss| - 1;
      WorktreeStepsLater(o, wss[..n], options);
      var mid := WorktreeSteps(o, wss[..n], options);
      StepsAreLater(mid, wss[n], options.WantsWorktree(wss[n].id), options.force, "", ProjectRoot);
    }
  }

  lemma {:induction false} BranchStepsLater(o: Outcome, wss: seq<Workstream>, options: ProjectRemovalOptions,
                                            path: string, probe: Probe)
    ensures Later(o, BranchSteps(o, wss, options, path, probe))
    ensures BranchSteps(o, wss, options, path, probe).world.dirs == o.world.dirs
    ensures BranchSteps(o, wss, options, path, probe).world.worktrees == o.world.worktrees
    decreases |wss|
  {
    if wss != [] {
      var n := |wss| - 1;
      BranchStepsLater(o, wss[..n], options, path, probe);
      var mid := BranchSteps(o, wss[..n], options, path, probe);
      StepsAreLater(mid, wss[n], options.WantsBranch(wss[n].id), false, path, probe);
    }
  }

  /** The three stages of a project removal, in order. */
  lemma {:induction false} StagesAreLater(w: World, p: Project, options: ProjectRemovalOptions, probe: Probe)
    ensures
      var o := Outcome(w, []);
      var a, b, d := AfterWorktrees(w, p, options), AfterBranches(w, p, options, probe),
        RemoveArtifacts(w, p, options, probe);
      && Later(o, a) && Later(a, b) && Later(b, d) && Later(o, d) && Later(a, d)
      && b.world.dirs == a.world.dirs && d.world.branches == b.world.branches
  {
    var o := Outcome(w, []);
    var a, b, d := AfterWorktrees(w, p, options), AfterBranches(w, p, options, probe),
      RemoveArtifacts(w, p, options, probe);
    WorktreeStepsLater(o, p.workstreams, options);
    BranchStepsLater(a, p.workstreams, options, p.path, probe);
    StepsAreLater(b, Workstream(0, "", true, None, None, [], false), options.removeAppSupportDir, false,
                  AppSupportDirectory(p.id), probe);
  }

  lemma {:induction false} NamedStays(o: Outcome, t: Outcome, artifact: string)
    requires Later(o, t) && Named(o.failures, artifact)
    ensures Named(t.failures, artifact)
  {
    var i :| 0 <= i < |o.failures| && o.failures[i].artifact == artifact;
    assert t.failures[i] == o.failures[i];
  }

  // ---------------------------------------------------------------------------------------------------
  // Each opted-in artifact is gone or named
  // ---------------------------------------------------------------------------------------------------

  lemma {:induction false} WorktreesGoneOrNamed(o: Outcome, wss: seq<Workstream>, options: ProjectRemovalOptions,
                                                i: nat)
    requires i < |wss| && OptedWorktree(wss[i], options.WantsWorktree(wss[i].id))
    ensures var t, wt := WorktreeSteps(o, wss, options), wss[i].worktreePath.value;
      wt !in t.world.dirs || Named(t.failures, wt)
    decreases |wss|
  {
    var n := |wss| - 1;
    var mid, t, wt := WorktreeSteps(o, wss[..n], options), WorktreeSteps(o, wss, options), wss[i].worktreePath.value;
    StepsAreLater(mid, wss[n], options.WantsWorktree(wss[n].id), options.force, "", ProjectRoot);
    if i < n {
      WorktreesGoneOrNamed(o, wss[..n], options, i);
      if Named(mid.failures, wt) {
        NamedStays(mid, t, wt);
      }
    } else if wt in t.world.dirs {
      assert t.failures[|t.failures| - 1].artifact == wt;
    }
  }

  lemma {:induction false} BranchesGoneOrNamed(o: Outcome, wss: seq<Workstream>, options: ProjectRemovalOptions,
                                               path: string, probe: Probe, i: nat)
    requires i < |wss| && options.WantsBranch(wss[i].id) && wss[i].branch.Some?
    requires Reaches(o.world, ProbeRoot(wss[i], path, probe))
    ensures var t, b := BranchSteps(o, wss, options, path, probe), wss[i].branch.value;
      b !in t.world.branches || Named(t.failures, b)
    decreases |wss|
  {
    var n := |wss| - 1;
    var mid, t := BranchSteps(o, wss[..n], options, path, probe), BranchSteps(o, wss, options, path, probe);
    var b := wss[i].branch.value;
    BranchStepsLater(o, wss[..n], options, path, probe);
    StepsAreLater(mid, wss[n], options.WantsBranch(wss[n].id), false, path, probe);
    if i < n {
      BranchesGoneOrNamed(o, wss[..n], options, path, probe, i);
      if Named(mid.failures, b) {
        NamedStays(mid, t, b);
      }
    } else if b in t.world.branches {
      assert t.failures[|t.failures| - 1].artifact == b;
    }
  }

  /**
   After the artifact steps every opted-in worktree and the app-support directory is gone or named in a failure,
   and so is every opted-in branch whose probe root could still be reached after step 1.
   */
  lemma {:induction false} ArtifactsGoneOrNamed(w: World, p: Project, options: ProjectRemovalOptions, probe: Probe,
                                                i: nat)
    requires i < |p.workstreams|
    ensures
      var ws, a, t := p.workstreams[i], AfterWorktrees(w, p, options), RemoveArtifacts(w, p, options, probe);
      && (OptedWorktree(ws, options.WantsWorktree(ws.id)) ==>
            ws.worktreePath.value !in t.world.dirs || Named(t.failures, ws.worktreePath.value))
      && (options.removeAppSupportDir ==>
            AppSupportDirectory(p.id) !in t.world.dirs || Named(t.failures, AppSupportDirectory(p.id)))
      && (options.WantsBranch(ws.id) && ws.branch.Some? && Reaches(a.world, ProbeRoot(ws, p.path, probe)) ==>
            ws.branch.value !in t.world.branches || Named(t.failures, ws.branch.value))
  {
    var ws, a, b, t := p.workstreams[i], AfterWorktrees(w, p, options), AfterBranches(w, p, options, probe),
                       RemoveArtifacts(w, p, options, probe);
    StagesAreLater(w, p, options, probe);
    if OptedWorktree(ws, options.WantsWorktree(ws.id)) {
      WorktreesGoneOrNamed(Outcome(w, []), p.workstreams, options, i);
      if Named(a.failures, ws.worktreePath.value) {
        NamedStays(a, t, ws.worktreePath.value);
      }
    }
    if options.WantsBranch(ws.id) && ws.branch.Some? && Reaches(a.world, ProbeRoot(ws, p.path, probe)) {
      BranchesGoneOrNamed(a, p.workstreams, options, p.path, probe, i);
      if Named(b.failures, ws.branch.value) {
        NamedStays(b, t, ws.branch.value);
      }
    }
    var dir := AppSupportDirectory(p.id);
    if options.removeAppSupportDir && dir in t.world.dirs {
      assert t.failures[|t.failures| - 1].artifact == dir;
    }
  }

  // ---------------------------------------------------------------------------------------------------
  // Branches: the described and the written behaviour
  // ---------------------------------------------------------------------------------------------------

  /** A worktree registered with the branch checked out, or its directory gone. */
  ghost predicate HeldOrGone(w: World, path: string, branch: string) {
    path in w.dirs ==> path in w.worktrees && w.worktrees[path].head == branch
  }

  /** Every workstream naming the branch has its own worktree, and that one is on the branch as long as it exists. */
  ghost predicate OnOwnWorktree(w: World, wss: seq<Workstream>, branch: string) {
    forall ws <- wss :: ws.branch == Some(branch) ==>
      ws.worktreePath.Some? && HeldOrGone(w, ws.worktreePath.value, branch)
  }

  lemma {:induction false} WorktreeStepsHold(o: Outcome, wss: seq<Workstream>, options: ProjectRemovalOptions,
                                             path: string, branch: string)
    requires HeldOrGone(o.world, path, branch)
    ensures HeldOrGone(WorktreeSteps(o, wss, options).world, path, branch)
    decreases |wss|
  {
    if wss != [] {
      WorktreeStepsHold(o, wss[..|wss| - 1], options, path, branch);
    }
  }

  lemma {:induction false} WorktreeStepsKeepBranches(o: Outcome, wss: seq<Workstream>, options: ProjectRemovalOptions)
    ensures WorktreeSteps(o, wss, options).world.branches == o.world.branches
    decreases |wss|
  {
    if wss != [] {
      WorktreeStepsKeepBranches(o, wss[..|wss| - 1], options);
    }
  }

  lemma {:induction false} BranchStepsSpare(o: Outcome, wss: seq<Workstream>, options: ProjectRemovalOptions,
                                            path: string, branch: string)
    requires OnOwnWorktree(o.world, wss, branch) && branch in o.world.branches
    ensures branch in BranchSteps(o, wss, options, path, EffectiveRoot).world.branches
    decreases |wss|
  {
    if wss != [] {
      var n := |wss| - 1;
      assert forall ws <- wss[..n] :: ws in wss;
      BranchStepsSpare(o, wss[..n], options, path, branch);
      BranchStepsLater(o, wss[..n], options, path, EffectiveRoot);
      assert wss[n] in wss;
    }
  }

  /**
   As written, removing a project never deletes a branch that its own worktree has checked out, whatever is opted
   in and however often: while the worktree is there git refuses, and once step 1 has deleted the directory step 2
   looks for the branch from inside it and takes it for gone.
   */
  lemma {:induction false} OwnBranchIsNeverDeleted(w: World, p: Project, options: ProjectRemovalOptions, branch: string)
    requires OnOwnWorktree(w, p.workstreams, branch) && branch in w.branches
    ensures branch in RemoveArtifacts(w, p, options, EffectiveRoot).world.branches
    ensures OnOwnWorktree(RemoveArtifacts(w, p, options, EffectiveRoot).world, p.workstreams, branch)
  {
    var a, t := AfterWorktrees(w, p, options), RemoveArtifacts(w, p, options, EffectiveRoot);
    forall ws | ws in p.workstreams && ws.branch == Some(branch)
      ensures ws.worktreePath.Some? && HeldOrGone(a.world, ws.worktreePath.value, branch)
    {
      WorktreeStepsHold(Outcome(w, []), p.workstreams, options, ws.worktreePath.value, branch);
    }
    WorktreeStepsKeepBranches(Outcome(w, []), p.workstreams, options);
    BranchStepsSpare(a, p.workstreams, options, p.path, branch);
    StagesAreLater(w, p, options, EffectiveRoot);
    BranchStepsLater(a, p.workstreams, options, p.path, EffectiveRoot);
    assert t.world.worktrees == a.world.worktrees;
  }

  /** Step 1 will remove the worktree of this workstream. */
  predicate WorktreeGoes(w: World, ws: Workstream, options: WorkstreamRemovalOptions) {
    OptedWorktree(ws, options.removeWorktreeDir) && CanRemoveWorktree(w, ws.worktreePath.value, options.force)
  }

  /** Step 2 will not reach the repository: it cannot be reached now, or step 1 takes the probe root away. */
  predicate ProbeFails(w: World, ws: Workstream, path: string, options: WorkstreamRemovalOptions, probe: Probe) {
    var root := ProbeRoot(ws, path, probe);
    !Reaches(w, root) || (WorktreeGoes(w, ws, options) && Under(root, ws.worktreePath.value))
  }

  /** The branch is checked out somewhere else than in a worktree that step 1 will remove. */
  ghost predicate StillHeld(w: World, ws: Workstream, options: WorkstreamRemovalOptions, branch: string) {
    w.rootHead == branch
    || exists q :: q in w.worktrees && w.worktrees[q].head == branch
                   && !(WorktreeGoes(w, ws, options) && q == ws.worktreePath.value)
  }

  /** The world of the call and the world in which step 2 probes. */
  lemma {:induction false} AfterStepOne(w: World, ws: Workstream, path: string, options: WorkstreamRemovalOptions,
                                        probe: Probe, branch: string)
    ensures
      var mid := WorktreeStep(Outcome(w, []), ws, options.removeWorktreeDir, options.force);
      && (Reaches(mid.world, ProbeRoot(ws, path, probe)) <==> !ProbeFails(w, ws, path, options, probe))
      && (CheckedOut(mid.world, branch) <==> StillHeld(w, ws, options, branch))
      && mid.world.branches == w.branches
  {
    var o := Outcome(w, []);
    var mid := WorktreeStep(o, ws, options.removeWorktreeDir, options.force);
    if WorktreeGoes(w, ws, options) {
      var wt := ws.worktreePath.value;
      assert mid.world.worktrees == w.worktrees - {wt} && mid.world.dirs == DirsWithout(w.dirs, wt);
      assert mid.world.rootHead == w.rootHead && Under(wt, wt);
      assert forall q :: q in mid.world.worktrees <==> q in w.worktrees && q != wt;
    } else {
      assert mid.world == w;
    }
  }

  /**
   The branch of one workstream, decided by what the call finds, for either probe: it stays behind without a word
   exactly if the probe fails, it is named exactly if the probe works and something still holds it, and it is deleted
   otherwise.
   */
  lemma {:induction false} BranchFateExactly(w: World, ws: Workstream, path: string, options: WorkstreamRemovalOptions,
                                             probe: Probe)
    requires options.removeBranch && ws.branch.Some? && ws.branch.value in w.branches
    ensures
      var b := ws.branch.value;
      var first := WorktreeStep(Outcome(w, []), ws, options.removeWorktreeDir, options.force).failures;
      var t := RemoveWorkstreamArtifacts(w, ws, path, options, probe);
      var fails, held := ProbeFails(w, ws, path, options, probe), StillHeld(w, ws, options, b);
      && (b in t.world.branches && t.failures == first <==> fails)
      && (b in t.world.branches && t.failures == first + [RemovalFailure(b, BranchDeleteFailed)] <==> !fails && held)
      && (b !in t.world.branches <==> !fails && !held)
  {
    AfterStepOne(w, ws, path, options, probe, ws.branch.value);
    var first := WorktreeStep(Outcome(w, []), ws, options.removeWorktreeDir, options.force).failures;
    assert |first + [RemovalFailure(ws.branch.value, BranchDeleteFailed)]| == |first| + 1;
  }

  /** As written, for a workstream with a worktree: it is the removal of that worktree that hides the branch. */
  lemma {:induction false} SilentBranchExactly(w: World, ws: Workstream, path: string,
                                               options: WorkstreamRemovalOptions)
    requires options.removeBranch && ws.branch.Some? && ws.branch.value in w.branches && ws.worktreePath.Some?
    ensures
      var b, wt := ws.branch.value, ws.worktreePath.value;
      var first := WorktreeStep(Outcome(w, []), ws, options.removeWorktreeDir, options.force).failures;
      var t := RemoveWorkstreamArtifacts(w, ws, path, options, EffectiveRoot);
      b in t.world.branches && t.failures == first
      <==> !Reaches(w, wt)
           || (OptedWorktree(ws, options.removeWorktreeDir) && CanRemoveWorktree(w, wt, options.force))
  {
    BranchFateExactly(w, ws, path, options, EffectiveRoot);
  }

  /** Some opted-in workstream on the branch is probed from a root that can be reached. */
  ghost predicate Probed(w: World, wss: seq<Workstream>, options: ProjectRemovalOptions, path: string, probe: Probe,
                         branch: string)
  {
    exists ws :: ws in wss && options.WantsBranch(ws.id) && ws.branch == Some(branch)
                 && Reaches(w, ProbeRoot(ws, path, probe))
  }

  /** Step 2 of a project removal deletes exactly the probed branches that are checked out nowhere. */
  lemma {:induction false} BranchesFateExactly(o: Outcome, wss: seq<Workstream>, options: ProjectRemovalOptions,
                                               path: string, probe: Probe, branch: string)
    requires branch in o.world.branches
    ensures branch !in BranchSteps(o, wss, options, path, probe).world.branches
       <==> !CheckedOut(o.world, branch) && Probed(o.world, wss, options, path, probe, branch)
    decreases |wss|
  {
    if wss != [] {
      var n := |wss| - 1;
      BranchesFateExactly(o, wss[..n], options, path, probe, branch);
      BranchStepsLater(o, wss[..n], options, path, probe);
      var mid, ws := BranchSteps(o, wss[..n], options, path, probe), wss[n];
      assert wss == wss[..n] + [ws];
      SameProbe(o.world, mid.world, ProbeRoot(ws, path, probe), branch);
      assert Probed(o.world, wss, options, path, probe, branch) <==>
        Probed(o.world, wss[..n], options, path, probe, branch)
        || (options.WantsBranch(ws.id) && ws.branch == Some(branch) && Reaches(o.world, ProbeRoot(ws, path, probe)));
    }
  }

  lemma {:induction false} SameProbe(w: World, u: World, root: string, branch: string)
    requires u.root == w.root && u.rootHead == w.rootHead && u.dirs == w.dirs && u.worktrees == w.worktrees
    ensures Reaches(u, root) == Reaches(w, root) && CheckedOut(u, branch) == CheckedOut(w, branch)
  {
  }

  /** The branches of a project, for a whole call. */
  lemma {:induction false} ProjectBranchesExactly(w: World, p: Project, options: ProjectRemovalOptions, probe: Probe,
                                                  branch: string)
    requires branch in w.branches
    ensures var a := AfterWorktrees(w, p, options).world;
      branch !in RemoveArtifacts(w, p, options, probe).world.branches
      <==> !CheckedOut(a, branch) && Probed(a, p.workstreams, options, p.path, probe, branch)
  {
    WorktreeStepsKeepBranches(Outcome(w, []), p.workstreams, options);
    BranchesFateExactly(AfterWorktrees(w, p, options), p.workstreams, options, p.path, probe, branch);
    StagesAreLater(w, p, options, probe);
  }

  /** A worktree that is there and not locked, on a branch nothing else has checked out. */
  ghost predicate ReadyToHeal(w: World, ws: Workstream, path: string) {
    && !ws.isDefault && ws.worktreePath.Some? && ws.branch.Some?
    && path == w.root && path in w.dirs && !Under(path, ws.worktreePath.value)
    && ws.branch.value in w.branches && w.rootHead != ws.branch.value
    && ws.worktreePath.value in w.dirs && ws.worktreePath.value in w.worktrees
    && !w.worktrees[ws.worktreePath.value].locked
    && forall q :: q in w.worktrees && q != ws.worktreePath.value ==> w.worktrees[q].head != ws.branch.value
  }

  predicate Healed(o: Outcome, ws: Workstream)
    requires ws.worktreePath.Some? && ws.branch.Some?
  {
    o.failures == [] && ws.worktreePath.value !in o.world.dirs && ws.branch.value !in o.world.branches
  }

  /**
   The call the comments promise heals everything at once: both boxes ticked, forced. Probing at the project root
   it does, exactly if the application runs inside the repository. As written it then reports no failure, removes the
   worktree, and leaves the branch. From outside, with either probe, it fails and the worktree stays, and so does the
   branch that is checked out there.
   */
  lemma {:induction false} DualToggleForcedCall(w: World, ws: Workstream, path: string)
    requires ReadyToHeal(w, ws, path)
    ensures
      var options, wt, b := WorkstreamRemovalOptions(true, true, true), ws.worktreePath.value, ws.branch.value;
      var described := RemoveWorkstreamArtifacts(w, ws, path, options, ProjectRoot);
      var written := RemoveWorkstreamArtifacts(w, ws, path, options, EffectiveRoot);
      && (Healed(described, ws) <==> w.cwdInRepo)
      && (w.cwdInRepo ==> written.failures == [] && wt !in written.world.dirs && b in written.world.branches)
      && (!w.cwdInRepo ==> forall o: Outcome | o == described || o == written ::
            && o.failures != [] && wt in o.world.dirs
            && (w.worktrees[wt].head == b ==> b in o.world.branches))
  {
    var options := WorkstreamRemovalOptions(true, true, true);
    BranchFateExactly(w, ws, path, options, ProjectRoot);
    BranchFateExactly(w, ws, path, options, EffectiveRoot);
    assert Under(path, w.root);
    var mid := WorktreeStep(Outcome(w, []), ws, true, true);
    StepsAreLater(mid, ws, true, true, path, ProjectRoot);
    StepsAreLater(mid, ws, true, true, path, EffectiveRoot);
    assert mid.failures == if w.cwdInRepo then [] else [RemovalFailure(ws.worktreePath.value, WorktreeRemoveFailed)];
  }

  // ---------------------------------------------------------------------------------------------------
  // Retries
  // ---------------------------------------------------------------------------------------------------

  /**
   A retry run: before each call the operator may clean, unlock or delete things, but nothing comes back; the
   calls keep the opted-in artifacts and may differ in `force`.
   */
  ghost predicate RetryRun(p: Project, options: ProjectRemovalOptions, probe: Probe,
                           before: seq<World>, forces: seq<bool>, outcomes: seq<Outcome>)
  {
    && |before| == |forces| == |outcomes|
    && (forall k :: 0 <= k < |outcomes| ==>
          outcomes[k] == RemoveArtifacts(before[k], p, options.(force := forces[k]), probe))
    && (forall k :: 0 <= k < |outcomes| - 1 ==>
          before[k + 1].dirs <= outcomes[k].world.dirs && before[k + 1].branches <= outcomes[k].world.branches)
  }

  lemma {:induction false} RemainingNeverGrows(p: Project, options: ProjectRemovalOptions, probe: Probe,
                                               before: seq<World>, forces: seq<bool>, outcomes: seq<Outcome>,
                                               j: nat, k: nat)
    requires RetryRun(p, options, probe, before, forces, outcomes) && j <= k < |outcomes|
    ensures before[k].dirs <= before[j].dirs && before[k].branches <= before[j].branches
    ensures outcomes[k].world.dirs <= before[j].dirs && outcomes[k].world.branches <= before[j].branches
    decreases k
  {
    StagesAreLater(before[k], p, options.(force := forces[k]), probe);
    if j < k {
      RemainingNeverGrows(p, options, probe, before, forces, outcomes, j, k - 1);
    }
  }

  /** An artifact that was already gone before some call is not reported by it or any later one. */
  lemma {:induction false} GoneIsNeverReported(p: Project, options: ProjectRemovalOptions, probe: Probe,
                                               before: seq<World>, forces: seq<bool>, outcomes: seq<Outcome>,
                                               j: nat, k: nat, artifact: string)
    requires RetryRun(p, options, probe, before, forces, outcomes) && j <= k < |outcomes|
    requires !Present(before[j], artifact)
    ensures !Named(outcomes[k].failures, artifact)
  {
    RemainingNeverGrows(p, options, probe, before, forces, outcomes, j, k);
    StagesAreLater(before[k], p, options.(force := forces[k]), probe);
  }

  /** Step 1 does not look for a worktree of this workstream, or can remove it. */
  predicate WorktreeAccepts(w: World, ws: Workstream, options: ProjectRemovalOptions) {
    OptedWorktree(ws, options.WantsWorktree(ws.id)) && ws.worktreePath.value in w.dirs ==>
      CanRemoveWorktree(w, ws.worktreePath.value, options.force)
  }

  /** Step 2, probing in world `a`, does not find a branch of this workstream, or can delete it. */
  ghost predicate BranchAccepts(a: World, ws: Workstream, options: ProjectRemovalOptions, path: string, probe: Probe) {
    options.WantsBranch(ws.id) && ws.branch.Some? && BranchExists(a, ProbeRoot(ws, path, probe), ws.branch.value) ==>
      !CheckedOut(a, ws.branch.value)
  }

  predicate DirectoryAccepts(a: World, wanted: bool, dir: string) {
    wanted && dir in a.dirs ==> dir !in a.undeletable
  }

  /** No opted-in step that finds its target would be refused. */
  ghost predicate NothingRefuses(w: World, p: Project, options: ProjectRemovalOptions, probe: Probe) {
    var a := AfterWorktrees(w, p, options).world;
    && (forall ws <- p.workstreams :: WorktreeAccepts(w, ws, options) && BranchAccepts(a, ws, options, p.path, probe))
    && DirectoryAccepts(a, options.removeAppSupportDir, AppSupportDirectory(p.id))
  }

  lemma {:induction false} WorktreeStepsSucceed(w: World, wss: seq<Workstream>, options: ProjectRemovalOptions)
    requires forall ws <- wss :: WorktreeAccepts(w, ws, options)
    ensures var t := WorktreeSteps(Outcome(w, []), wss, options);
      && t.failures == [] && Shrunk(w, t.world)
      && forall path :: path in w.worktrees && path in t.world.dirs ==> path in t.world.worktrees
    decreases |wss|
  {
    if wss != [] {
      var n := |wss| - 1;
      assert forall ws <- wss[..n] :: ws in wss;
      WorktreeStepsSucceed(w, wss[..n], options);
      var mid := WorktreeSteps(Outcome(w, []), wss[..n], options);
      assert wss[n] in wss;
      StepsAreLater(mid, wss[n], options.WantsWorktree(wss[n].id), options.force, "", ProjectRoot);
    }
  }

  lemma {:induction false} BranchStepsSucceed(o: Outcome, wss: seq<Workstream>, options: ProjectRemovalOptions,
                                              path: string, probe: Probe)
    requires forall ws <- wss :: BranchAccepts(o.world, ws, options, path, probe)
    ensures BranchSteps(o, wss, options, path, probe).failures == o.failures
    decreases |wss|
  {
    if wss != [] {
      var n := |wss| - 1;
      assert forall ws <- wss[..n] :: ws in wss;
      BranchStepsSucceed(o, wss[..n], options, path, probe);
      BranchStepsLater(o, wss[..n], options, path, probe);
      assert wss[n] in wss;
    }
  }

  /** Once nothing refuses, one call leaves no failure. */
  lemma {:induction false} OneCallSuffices(w: World, p: Project, options: ProjectRemovalOptions, probe: Probe)
    requires NothingRefuses(w, p, options, probe)
    ensures RemoveArtifacts(w, p, options, probe).failures == []
  {
    WorktreeStepsSucceed(w, p.workstreams, options);
    BranchStepsSucceed(AfterWorktrees(w, p, options), p.workstreams, options, p.path, probe);
    StagesAreLater(w, p, options, probe);
  }

  /** No opted-in worktree lies inside another one. */
  ghost predicate DoNotNest(wss: seq<Workstream>, options: ProjectRemovalOptions) {
    forall v, ws | v in wss && ws in wss :: OptedWorktree(v, options.WantsWorktree(v.id))
      && OptedWorktree(ws, options.WantsWorktree(ws.id)) && Under(v.worktreePath.value, ws.worktreePath.value)
      ==> v.worktreePath == ws.worktreePath
  }

  /** A worktree that refuses stays through step 1, unless it lies inside another one. */
  lemma {:induction false} RefusingStays(o: Outcome, wss: seq<Workstream>, options: ProjectRemovalOptions, path: string)
    requires path in o.world.dirs && !CanRemoveWorktree(o.world, path, options.force)
    requires forall ws <- wss ::
      OptedWorktree(ws, options.WantsWorktree(ws.id)) && Under(path, ws.worktreePath.value) ==>
      ws.worktreePath.value == path
    ensures var t := WorktreeSteps(o, wss, options).world;
      path in t.dirs && !CanRemoveWorktree(t, path, options.force)
    decreases |wss|
  {
    if wss != [] {
      var n := |wss| - 1;
      assert forall ws <- wss[..n] :: ws in wss;
      RefusingStays(o, wss[..n], options, path);
      assert wss[n] in wss;
    }
  }

  /** For worktrees that do not nest, one call leaves no failure if and only if nothing refuses. */
  lemma {:induction false} OneCallSufficesExactly(w: World, p: Project, options: ProjectRemovalOptions, probe: Probe)
    requires DoNotNest(p.workstreams, options)
    ensures RemoveArtifacts(w, p, options, probe).failures == [] <==> NothingRefuses(w, p, options, probe)
  {
    var t := RemoveArtifacts(w, p, options, probe);
    if NothingRefuses(w, p, options, probe) {
      OneCallSuffices(w, p, options, probe);
    } else if t.failures == [] {
      forall ws | ws in p.workstreams
        ensures WorktreeAccepts(w, ws, options)
        ensures BranchAccepts(AfterWorktrees(w, p, options).world, ws, options, p.path, probe)
      {
        var i :| 0 <= i < |p.workstreams| && p.workstreams[i] == ws;
        NoFailureNoRefusal(w, p, options, probe, i);
      }
      StagesAreLater(w, p, options, probe);
    }
  }

  lemma {:induction false} NoFailureNoRefusal(w: World, p: Project, options: ProjectRemovalOptions, probe: Probe,
                                              i: nat)
    requires DoNotNest(p.workstreams, options) && RemoveArtifacts(w, p, options, probe).failures == []
    requires i < |p.workstreams|
    ensures WorktreeAccepts(w, p.workstreams[i], options)
    ensures BranchAccepts(AfterWorktrees(w, p, options).world, p.workstreams[i], options, p.path, probe)
  {
    var ws, a := p.workstreams[i], AfterWorktrees(w, p, options);
    StagesAreLater(w, p, options, probe);
    if !WorktreeAccepts(w, ws, options) {
      RefusingStays(Outcome(w, []), p.workstreams, options, ws.worktreePath.value);
      WorktreesGoneOrNamed(Outcome(w, []), p.workstreams, options, i);
    }
    if !BranchAccepts(a.world, ws, options, p.path, probe) {
      BranchesFateExactly(a, p.workstreams, options, p.path, probe, ws.branch.value);
      BranchesGoneOrNamed(a, p.workstreams, options, p.path, probe, i);
    }
  }

  // ---------------------------------------------------------------------------------------------------
  // Decided by what the call finds
  // ---------------------------------------------------------------------------------------------------

  /** The opted-in worktrees that step 1 can remove. */
  function RemovableWorktrees(w: World, wss: seq<Workstream>, options: ProjectRemovalOptions): set<string> {
    set ws | ws in wss && OptedWorktree(ws, options.WantsWorktree(ws.id))
             && CanRemoveWorktree(w, ws.worktreePath.value, options.force) :: ws.worktreePath.value
  }

  /** The world with some worktrees taken out of it, with everything inside them. */
  function WithoutWorktrees(w: World, paths: set<string>): World {
    w.(worktrees := w.worktrees - paths, dirs := set d | d in w.dirs && forall p <- paths :: !Under(d, p))
  }

  lemma {:induction false} OneMoreRemoved(w: World, paths: set<string>, path: string, force: bool)
    requires CanRemoveWorktree(WithoutWorktrees(w, paths), path, force)
    ensures RemoveWorktree(WithoutWorktrees(w, paths), path, force).0 == WithoutWorktrees(w, paths + {path})
  {
    var t, u := RemoveWorktree(WithoutWorktrees(w, paths), path, force).0, WithoutWorktrees(w, paths + {path});
    assert t.worktrees == u.worktrees;
    assert t.dirs == u.dirs;
  }

  /** A worktree that is still there can be removed exactly if it could be to begin with. */
  lemma {:induction false} RemovableThen(w: World, paths: set<string>, path: string, force: bool)
    requires path in WithoutWorktrees(w, paths).dirs
    ensures CanRemoveWorktree(WithoutWorktrees(w, paths), path, force) <==> CanRemoveWorktree(w, path, force)
  {
    assert Under(path, path);
    assert path !in paths;
  }

  /** For worktrees that do not nest, step 1 takes away those it can remove to begin with, and nothing else. */
  lemma {:induction false} StepOneExactly(w: World, wss: seq<Workstream>, options: ProjectRemovalOptions)
    requires DoNotNest(wss, options)
    ensures WorktreeSteps(Outcome(w, []), wss, options).world
         == WithoutWorktrees(w, RemovableWorktrees(w, wss, options))
    decreases |wss|
  {
    if wss == [] {
      assert RemovableWorktrees(w, wss, options) == {};
      assert WithoutWorktrees(w, {}).dirs == w.dirs && WithoutWorktrees(w, {}).worktrees == w.worktrees;
    } else {
      var n := |wss| - 1;
      assert forall ws <- wss[..n] :: ws in wss;
      StepOneExactly(w, wss[..n], options);
      LastWorktree(w, wss, options);
    }
  }

  /** What one workstream adds to the worktrees that go. */
  function RemovableWorktree(w: World, ws: Workstream, options: ProjectRemovalOptions): set<string> {
    if OptedWorktree(ws, options.WantsWorktree(ws.id)) && CanRemoveWorktree(w, ws.worktreePath.value, options.force)
    then {ws.worktreePath.value} else {}
  }

  lemma {:induction false} RemovableSnoc(w: World, front: seq<Workstream>, ws: Workstream,
                                         options: ProjectRemovalOptions)
    ensures RemovableWorktrees(w, front + [ws], options)
         == RemovableWorktrees(w, front, options) + RemovableWorktree(w, ws, options)
  {
    assert forall v :: v in front + [ws] <==> v in front || v == ws;
  }

  /** One step from a world that is what it was but for some worktrees, none of which holds this one. */
  lemma {:induction false} StepFrom(w: World, gone: set<string>, failures: seq<RemovalFailure>, ws: Workstream,
                                    options: ProjectRemovalOptions)
    requires OptedWorktree(ws, options.WantsWorktree(ws.id)) ==>
      forall p <- gone :: Under(ws.worktreePath.value, p) ==> p == ws.worktreePath.value
    ensures var o := Outcome(WithoutWorktrees(w, gone), failures);
      WorktreeStep(o, ws, options.WantsWorktree(ws.id), options.force).world
        == WithoutWorktrees(w, gone + RemovableWorktree(w, ws, options))
  {
    if OptedWorktree(ws, options.WantsWorktree(ws.id)) {
      var wt := ws.worktreePath.value;
      if wt in WithoutWorktrees(w, gone).dirs {
        RemovableThen(w, gone, wt, options.force);
        if CanRemoveWorktree(w, wt, options.force) {
          OneMoreRemoved(w, gone, wt, options.force);
        } else {
          assert gone + {} == gone;
        }
      } else {
        GoneAlready(w, gone, wt, options.force);
        assert gone + RemovableWorktree(w, ws, options) == gone;
      }
    } else {
      assert gone + {} == gone;
    }
  }

  lemma {:induction false} GoneAlready(w: World, gone: set<string>, wt: string, force: bool)
    requires wt !in WithoutWorktrees(w, gone).dirs && forall p <- gone :: Under(wt, p) ==> p == wt
    ensures wt in gone || !CanRemoveWorktree(w, wt, force)
  {
  }

  lemma {:induction false} LastWorktree(w: World, wss: seq<Workstream>, options: ProjectRemovalOptions)
    requires wss != [] && DoNotNest(wss, options)
    requires var n := |wss| - 1;
      WorktreeSteps(Outcome(w, []), wss[..n], options).world
        == WithoutWorktrees(w, RemovableWorktrees(w, wss[..n], options))
    ensures WorktreeSteps(Outcome(w, []), wss, options).world
         == WithoutWorktrees(w, RemovableWorktrees(w, wss, options))
  {
    var n := |wss| - 1;
    var gone := RemovableWorktrees(w, wss[..n], options);
    NoneHolds(w, wss, options);
    RemovableSnoc(w, wss[..n], wss[n], options);
    StepFrom(w, gone, WorktreeSteps(Outcome(w, []), wss[..n], options).failures, wss[n], options);
    assert wss[..n] + [wss[n]] == wss;
  }

  lemma {:induction false} NoneHolds(w: World, wss: seq<Workstream>, options: ProjectRemovalOptions)
    requires wss != [] && DoNotNest(wss, options)
    ensures var ws := wss[|wss| - 1];
      OptedWorktree(ws, options.WantsWorktree(ws.id)) ==>
        forall p <- RemovableWorktrees(w, wss[..|wss| - 1], options) ::
          Under(ws.worktreePath.value, p) ==> p == ws.worktreePath.value
  {
    assert forall v <- wss[..|wss| - 1] :: v in wss;
    assert wss[|wss| - 1] in wss;
  }

  /** A root from which the repository can be reached, and still can when step 1 is done. */
  ghost predicate StaysReachable(w: World, gone: set<string>, root: string) {
    Reaches(w, root) && forall p <- gone :: !Under(root, p)
  }

  /** Some opted-in workstream on the branch is probed from such a root. */
  ghost predicate WillBeProbed(w: World, p: Project, options: ProjectRemovalOptions, probe: Probe, branch: string) {
    exists ws :: ws in p.workstreams && options.WantsBranch(ws.id) && ws.branch == Some(branch)
                 && StaysReachable(w, RemovableWorktrees(w, p.workstreams, options), ProbeRoot(ws, p.path, probe))
  }

  /** The branch is checked out somewhere that step 1 does not take away. */
  ghost predicate HeldOutside(w: World, gone: set<string>, branch: string) {
    w.rootHead == branch || exists q :: q in w.worktrees && q !in gone && w.worktrees[q].head == branch
  }

  lemma {:induction false} ReachedExactly(w: World, gone: set<string>, root: string, branch: string)
    ensures Reaches(WithoutWorktrees(w, gone), root) <==> StaysReachable(w, gone, root)
    ensures CheckedOut(WithoutWorktrees(w, gone), branch) <==> HeldOutside(w, gone, branch)
  {
    var u := WithoutWorktrees(w, gone);
    assert Under(root, root);
    assert forall q :: q in u.worktrees <==> q in w.worktrees && q !in gone;
  }

  predicate NamesBranch(failures: seq<RemovalFailure>, branch: string) {
    RemovalFailure(branch, BranchDeleteFailed) in failures
  }

  lemma {:induction false} WorktreesNameNoBranch(o: Outcome, wss: seq<Workstream>, options: ProjectRemovalOptions,
                                                 branch: string)
    ensures NamesBranch(WorktreeSteps(o, wss, options).failures, branch) <==> NamesBranch(o.failures, branch)
    decreases |wss|
  {
    if wss != [] {
      WorktreesNameNoBranch(o, wss[..|wss| - 1], options, branch);
    }
  }

  /** Step 2 names exactly the probed branches that something has checked out. */
  lemma {:induction false} BranchesNamedExactly(o: Outcome, wss: seq<Workstream>, options: ProjectRemovalOptions,
                                                path: string, probe: Probe, branch: string)
    requires branch in o.world.branches && !NamesBranch(o.failures, branch)
    ensures NamesBranch(BranchSteps(o, wss, options, path, probe).failures, branch)
       <==> CheckedOut(o.world, branch) && Probed(o.world, wss, options, path, probe, branch)
    decreases |wss|
  {
    if wss != [] {
      var n := |wss| - 1;
      BranchesNamedExactly(o, wss[..n], options, path, probe, branch);
      BranchesFateExactly(o, wss[..n], options, path, probe, branch);
      BranchStepsLater(o, wss[..n], options, path, probe);
      var mid, ws := BranchSteps(o, wss[..n], options, path, probe), wss[n];
      assert wss == wss[..n] + [ws];
      SameProbe(o.world, mid.world, ProbeRoot(ws, path, probe), branch);
      assert Probed(o.world, wss, options, path, probe, branch) <==>
        Probed(o.world, wss[..n], options, path, probe, branch)
        || (options.WantsBranch(ws.id) && ws.branch == Some(branch) && Reaches(o.world, ProbeRoot(ws, path, probe)));
    }
  }

  /**
   The branches of a project whose worktrees do not nest, decided by what the call finds, for either probe: a branch
   stays without a word exactly if nobody probes for it from a root that stays reachable, it is named exactly if
   somebody does and something still holds it, and it is deleted otherwise.
   */
  lemma {:induction false} ProjectBranchFateExactly(w: World, p: Project, options: ProjectRemovalOptions, probe: Probe,
                                                    branch: string)
    requires DoNotNest(p.workstreams, options) && branch in w.branches
    ensures
      var t := RemoveArtifacts(w, p, options, probe);
      var probed := WillBeProbed(w, p, options, probe, branch);
      var held := HeldOutside(w, RemovableWorktrees(w, p.workstreams, options), branch);
      && (branch in t.world.branches && !NamesBranch(t.failures, branch) <==> !probed)
      && (branch in t.world.branches && NamesBranch(t.failures, branch) <==> probed && held)
      && (branch !in t.world.branches <==> probed && !held)
  {
    var a, gone := AfterWorktrees(w, p, options), RemovableWorktrees(w, p.workstreams, options);
    StepOneExactly(w, p.workstreams, options);
    WorktreeStepsKeepBranches(Outcome(w, []), p.workstreams, options);
    WorktreesNameNoBranch(Outcome(w, []), p.workstreams, options, branch);
    BranchesFateExactly(a, p.workstreams, options, p.path, probe, branch);
    BranchesNamedExactly(a, p.workstreams, options, p.path, probe, branch);
    StagesAreLater(w, p, options, probe);
    assert NamesBranch(RemoveArtifacts(w, p, options, probe).failures, branch)
      <==> NamesBranch(AfterBranches(w, p, options, probe).failures, branch);
    forall root ensures Reaches(a.world, root) <==> StaysReachable(w, gone, root)
    {
      ReachedExactly(w, gone, root, branch);
    }
    ReachedExactly(w, gone, "", branch);
  }

  predicate IsOptedBranch(w: World, ws: Workstream, options: ProjectRemovalOptions) {
    options.WantsBranch(ws.id) && ws.branch.Some? && ws.branch.value in w.branches
  }

  ghost predicate BranchWillAccept(w: World, gone: set<string>, ws: Workstream, options: ProjectRemovalOptions,
                                   path: string, probe: Probe)
  {
    IsOptedBranch(w, ws, options) && StaysReachable(w, gone, ProbeRoot(ws, path, probe)) ==>
      !HeldOutside(w, gone, ws.branch.value)
  }

  /** Nothing opted in and found would be refused, as the call finds it. */
  ghost predicate NothingWillRefuse(w: World, p: Project, options: ProjectRemovalOptions, probe: Probe) {
    var gone, dir := RemovableWorktrees(w, p.workstreams, options), AppSupportDirectory(p.id);
    && (forall ws <- p.workstreams :: WorktreeAccepts(w, ws, options))
    && (forall ws <- p.workstreams :: BranchWillAccept(w, gone, ws, options, p.path, probe))
    && (options.removeAppSupportDir && dir in w.dirs && (forall q <- gone :: !Under(dir, q)) ==> dir !in w.undeletable)
  }

  /** For worktrees that do not nest, a call leaves no failure if and only if it finds nothing that will refuse. */
  lemma {:induction false} CallSucceedsExactly(w: World, p: Project, options: ProjectRemovalOptions, probe: Probe)
    requires DoNotNest(p.workstreams, options)
    ensures RemoveArtifacts(w, p, options, probe).failures == [] <==> NothingWillRefuse(w, p, options, probe)
  {
    var a, gone := AfterWorktrees(w, p, options).world, RemovableWorktrees(w, p.workstreams, options);
    OneCallSufficesExactly(w, p, options, probe);
    StepOneExactly(w, p.workstreams, options);
    WorktreeStepsKeepBranches(Outcome(w, []), p.workstreams, options);
    forall ws | ws in p.workstreams && ws.branch.Some?
      ensures BranchAccepts(a, ws, options, p.path, probe) <==> BranchWillAccept(w, gone, ws, options, p.path, probe)
    {
      ReachedExactly(w, gone, ProbeRoot(ws, p.path, probe), ws.branch.value);
    }
  }

  // ---------------------------------------------------------------------------------------------------
  // An application started outside the repository
  // ---------------------------------------------------------------------------------------------------

  lemma {:induction false} OutsideNothingGoes(o: Outcome, wss: seq<Workstream>, options: ProjectRemovalOptions)
    requires !o.world.cwdInRepo
    ensures WorktreeSteps(o, wss, options).world == o.world
    decreases |wss|
  {
    if wss != [] {
      OutsideNothingGoes(o, wss[..|wss| - 1], options);
    }
  }

  /**
   From outside the repository a call with an opted-in worktree that is there always fails, and the worktree is there
   afterwards, unless it lies in the app-support directory.
   */
  lemma {:induction false} OutsideCallFails(w: World, p: Project, options: ProjectRemovalOptions, probe: Probe, i: nat)
    requires !w.cwdInRepo && i < |p.workstreams|
    requires OptedWorktree(p.workstreams[i], options.WantsWorktree(p.workstreams[i].id))
    requires p.workstreams[i].worktreePath.value in w.dirs
    ensures var t, wt := RemoveArtifacts(w, p, options, probe), p.workstreams[i].worktreePath.value;
      && Named(t.failures, wt) && !t.world.cwdInRepo
      && (!Under(wt, AppSupportDirectory(p.id)) ==> wt in t.world.dirs)
  {
    var a, wt := AfterWorktrees(w, p, options), p.workstreams[i].worktreePath.value;
    OutsideNothingGoes(Outcome(w, []), p.workstreams, options);
    WorktreesGoneOrNamed(Outcome(w, []), p.workstreams, options, i);
    StagesAreLater(w, p, options, probe);
    NamedStays(a, RemoveArtifacts(w, p, options, probe), wt);
  }
}
