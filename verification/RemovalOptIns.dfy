/** Removal touches what was ticked. */
module RemovalOptIns {
  // The options are maps from workstream identifiers to ticks. What a call takes away, and what it has to take away or
  // name, is stated here on those maps and on the workstreams' own fields.

  import opened Options
  import opened ProjectModel
  import opened WorktreeGit
  import opened Removal

  /** The workstream's worktree box is ticked; the default workstream's directory is the project itself. */
  predicate WorktreeTicked(ws: Workstream, ticks: map<nat, bool>) {
    ws.id in ticks && ticks[ws.id] && !ws.isDefault && ws.worktreePath.Some?
  }

  predicate BranchTicked(ws: Workstream, ticks: map<nat, bool>) {
    ws.id in ticks && ticks[ws.id] && ws.branch.Some?
  }

  /** The directory itself, or something inside it. */
  predicate AtOrIn(dir: string, path: string) {
    dir == path || path + "/" <= dir
  }

  /** Why a directory may be gone: it lay in a ticked worktree that git was ready to give up. */
  ghost predicate MayGo(w: World, wss: seq<Workstream>, options: ProjectRemovalOptions, dir: string) {
    exists ws :: ws in wss && WorktreeTicked(ws, options.removeWorktreeDir) && AtOrIn(dir, ws.worktreePath.value)
                 && Yields(w, ws.worktreePath.value, options.force)
  }

  /** From inside the repository, a registered worktree that is not locked, and clean or forced. */
  predicate Yields(w: World, path: string, force: bool) {
    && w.cwdInRepo && path in w.worktrees && path in w.dirs
    && !w.worktrees[path].locked && (w.worktrees[path].dirty ==> force)
  }

  // ---------------------------------------------------------------------------------------------------
  // Nothing else goes
  // ---------------------------------------------------------------------------------------------------

  lemma {:induction false} WorktreesOnlyTicked(w: World, wss: seq<Workstream>, options: ProjectRemovalOptions,
                                               d: string)
    ensures var t := WorktreeSteps(Outcome(w, []), wss, options).world;
      && (d in w.dirs && d !in t.dirs ==> MayGo(w, wss, options, d))
      && (d in w.worktrees && d !in t.worktrees ==>
            exists ws :: ws in wss && WorktreeTicked(ws, options.removeWorktreeDir) && ws.worktreePath == Some(d)
                         && Yields(w, d, options.force))
    decreases |wss|
  {
    if wss != [] {
      var n := |wss| - 1;
      var mid, ws := WorktreeSteps(Outcome(w, []), wss[..n], options), wss[n];
      assert wss == wss[..n] + [ws];
      WorktreesOnlyTicked(w, wss[..n], options, d);
      WorktreeStepsLater(Outcome(w, []), wss[..n], options);
      OneOnlyTicked(w, mid, ws, options, d);
    }
  }

  lemma {:induction false} OneOnlyTicked(w: World, mid: Outcome, ws: Workstream, options: ProjectRemovalOptions,
                                         d: string)
    requires Shrunk(w, mid.world)
    ensures var t := WorktreeStep(mid, ws, options.WantsWorktree(ws.id), options.force).world;
      && (d in mid.world.dirs && d !in t.dirs ==>
            WorktreeTicked(ws, options.removeWorktreeDir) && AtOrIn(d, ws.worktreePath.value)
            && Yields(w, ws.worktreePath.value, options.force))
      && (d in mid.world.worktrees && d !in t.worktrees ==>
            WorktreeTicked(ws, options.removeWorktreeDir) && ws.worktreePath == Some(d) && Yields(w, d, options.force))
  {
  }

  lemma {:induction false} BranchesOnlyTicked(o: Outcome, wss: seq<Workstream>, options: ProjectRemovalOptions,
                                              path: string, probe: Probe, b: string)
    requires b in o.world.branches && b !in BranchSteps(o, wss, options, path, probe).world.branches
    ensures exists ws :: ws in wss && BranchTicked(ws, options.removeBranch) && ws.branch == Some(b)
    decreases |wss|
  {
    var n := |wss| - 1;
    var mid, ws := BranchSteps(o, wss[..n], options, path, probe), wss[n];
    assert wss == wss[..n] + [ws];
    if b !in mid.world.branches {
      BranchesOnlyTicked(o, wss[..n], options, path, probe, b);
    }
  }

  /**
   A project removal takes away a directory only if it lies in the app-support directory and that box is ticked, or in
   the worktree of a workstream that is not the default and whose box is ticked; a worktree's registration only for such
   a workstream; a branch only for a workstream whose branch box is ticked. Unforced, no changes are lost.
   */
  lemma {:induction false} OnlyTickedGoes(w: World, p: Project, options: ProjectRemovalOptions, probe: Probe, d: string)
    ensures var t := RemoveArtifacts(w, p, options, probe).world;
      && (d in w.dirs && d !in t.dirs ==>
            MayGo(w, p.workstreams, options, d)
            || (options.removeAppSupportDir && AtOrIn(d, AppSupportDirectory(p.id))))
      && (d in w.worktrees && d !in t.worktrees ==>
            exists ws :: ws in p.workstreams && WorktreeTicked(ws, options.removeWorktreeDir)
                         && ws.worktreePath == Some(d) && Yields(w, d, options.force))
      && (d in w.branches && d !in t.branches ==>
            exists ws :: ws in p.workstreams && BranchTicked(ws, options.removeBranch) && ws.branch == Some(d))
  {
    var a, b := AfterWorktrees(w, p, options), AfterBranches(w, p, options, probe);
    WorktreesOnlyTicked(w, p.workstreams, options, d);
    WorktreeStepsKeepBranches(Outcome(w, []), p.workstreams, options);
    BranchStepsLater(a, p.workstreams, options, p.path, probe);
    if d in a.world.branches && d !in b.world.branches {
      BranchesOnlyTicked(a, p.workstreams, options, p.path, probe, d);
    }
  }

  // ---------------------------------------------------------------------------------------------------
  // What is ticked goes, or is named
  // ---------------------------------------------------------------------------------------------------

  /** A name among the failures. */
  predicate InFailures(failures: seq<RemovalFailure>, artifact: string) {
    exists k :: 0 <= k < |failures| && failures[k].artifact == artifact
  }

  /**
   Of what is ticked, each worktree and the app-support directory is gone or named afterwards, and each branch that was
   probed for from a root still reachable behind step 1.
   */
  lemma {:induction false} TickedGoesOrIsNamed(w: World, p: Project, options: ProjectRemovalOptions, probe: Probe,
                                               ws: Workstream)
    requires ws in p.workstreams
    ensures var t := RemoveArtifacts(w, p, options, probe);
      && (WorktreeTicked(ws, options.removeWorktreeDir) ==>
            ws.worktreePath.value !in t.world.dirs || InFailures(t.failures, ws.worktreePath.value))
      && (options.removeAppSupportDir ==>
            AppSupportDirectory(p.id) !in t.world.dirs || InFailures(t.failures, AppSupportDirectory(p.id)))
      && (BranchTicked(ws, options.removeBranch)
          && Reaches(AfterWorktrees(w, p, options).world, ProbeRoot(ws, p.path, probe)) ==>
            ws.branch.value !in t.world.branches || InFailures(t.failures, ws.branch.value))
  {
    var i :| 0 <= i < |p.workstreams| && p.workstreams[i] == ws;
    ArtifactsGoneOrNamed(w, p, options, probe, i);
  }

  /** Nothing is named that was not ticked and there. */
  lemma {:induction false} OnlyTickedIsNamed(w: World, p: Project, options: ProjectRemovalOptions, probe: Probe,
                                             f: RemovalFailure)
    requires f in RemoveArtifacts(w, p, options, probe).failures
    ensures match f.reason
      case WorktreeRemoveFailed =>
        f.artifact in w.dirs
        && exists ws :: ws in p.workstreams && WorktreeTicked(ws, options.removeWorktreeDir)
                        && ws.worktreePath == Some(f.artifact)
      case BranchDeleteFailed =>
        f.artifact in w.branches
        && exists ws :: ws in p.workstreams && BranchTicked(ws, options.removeBranch) && ws.branch == Some(f.artifact)
      case FileRemoveFailed => options.removeAppSupportDir && f.artifact == AppSupportDirectory(p.id)
      case CannotRemoveDefault => false
  {
    WorktreeNames(Outcome(w, []), p.workstreams, options, f);
    BranchNames(AfterWorktrees(w, p, options), p.workstreams, options, p.path, probe, f);
    StagesAreLater(w, p, options, probe);
  }

  lemma {:induction false} WorktreeNames(o: Outcome, wss: seq<Workstream>, options: ProjectRemovalOptions,
                                         f: RemovalFailure)
    requires o.failures == []
    ensures f in WorktreeSteps(o, wss, options).failures ==>
      && f.reason == WorktreeRemoveFailed && f.artifact in o.world.dirs
      && exists ws :: ws in wss && WorktreeTicked(ws, options.removeWorktreeDir) && ws.worktreePath == Some(f.artifact)
    decreases |wss|
  {
    if wss != [] {
      var n := |wss| - 1;
      WorktreeNames(o, wss[..n], options, f);
      WorktreeStepsLater(o, wss[..n], options);
      assert wss == wss[..n] + [wss[n]];
    }
  }

  lemma {:induction false} BranchNames(o: Outcome, wss: seq<Workstream>, options: ProjectRemovalOptions, path: string,
                                       probe: Probe, f: RemovalFailure)
    ensures f in BranchSteps(o, wss, options, path, probe).failures && f !in o.failures ==>
      && f.reason == BranchDeleteFailed && f.artifact in o.world.branches
      && exists ws :: ws in wss && BranchTicked(ws, options.removeBranch) && ws.branch == Some(f.artifact)
    decreases |wss|
  {
    if wss != [] {
      var n := |wss| - 1;
      BranchNames(o, wss[..n], options, path, probe, f);
      BranchStepsLater(o, wss[..n], options, path, probe);
      assert wss == wss[..n] + [wss[n]];
    }
  }

  // ---------------------------------------------------------------------------------------------------
  // One workstream
  // ---------------------------------------------------------------------------------------------------

  /** The same for the removal of one workstream, whose options are two ticks. */
  lemma {:induction false} WorkstreamOnlyTickedGoes(w: World, ws: Workstream, path: string,
                                                    options: WorkstreamRemovalOptions, probe: Probe, d: string)
    ensures var t := RemoveWorkstreamArtifacts(w, ws, path, options, probe).world;
      && (d in w.dirs && d !in t.dirs ==>
            options.removeWorktreeDir && !ws.isDefault && ws.worktreePath.Some?
            && AtOrIn(d, ws.worktreePath.value) && Yields(w, ws.worktreePath.value, options.force))
      && (d in w.branches && d !in t.branches ==> options.removeBranch && ws.branch == Some(d))
  {
  }

  /** In the repository's main checkout, or the place of a linked worktree; and there. */
  predicate StandsInRepository(w: World, path: string) {
    path in w.dirs && (path == w.root || w.root + "/" <= path || path in w.worktrees)
  }

  /**
   A workstream whose own root is gone, or lies in no checkout of the repository: its branch is not probed for, and
   stays without a word. Otherwise it is deleted if no checkout has it, and named if one has.
   */
  lemma {:induction false} BranchByItsRoot(w: World, ws: Workstream, path: string, options: WorkstreamRemovalOptions)
    requires options.removeBranch && !options.removeWorktreeDir && ws.branch.Some? && ws.branch.value in w.branches
    ensures
      var root := if ws.worktreePath.Some? then ws.worktreePath.value else path;
      var o, held := RemoveWorkstreamArtifacts(w, ws, path, options, EffectiveRoot),
        ws.branch.value == w.rootHead || exists q :: q in w.worktrees && w.worktrees[q].head == ws.branch.value;
      && (!StandsInRepository(w, root) ==> o == Outcome(w, []))
      && (StandsInRepository(w, root) && held ==>
            o.world == w && |o.failures| == 1 && o.failures[0].artifact == ws.branch.value)
      && (StandsInRepository(w, root) && !held ==> o == Outcome(w.(branches := w.branches - {ws.branch.value}), []))
  {
  }

  /** The directory of one project is neither that of another nor inside it, so none goes with another. */
  lemma {:induction false} SupportDirectoriesApart(a: nat, b: nat)
    ensures AtOrIn(AppSupportDirectory(b), AppSupportDirectory(a)) <==> a == b
  {
    var prefix := "app-support/";
    var x, y := AppSupportDirectory(a), AppSupportDirectory(b);
    assert |x| == |prefix| + a && |y| == |prefix| + b;
    SlashBehind(x, y);
    assert forall k :: |prefix| <= k < |y| ==> y[k] == '1';
  }

  lemma {:induction false} SlashBehind(x: string, y: string)
    ensures x + "/" <= y ==> |x| < |y| && y[|x|] == '/'
  {
    assert (x + "/")[|x|] == '/';
  }
}
