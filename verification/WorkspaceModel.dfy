/** The workspace object and its removals. */
module WorkspaceModel {
  import opened Options
  import opened PaneModel
  import opened ProjectModel
  import opened WorktreeGit
  import opened Removal

  /** The value of a workspace. */
  datatype Workspace = Workspace(projects: seq<Project>, activeProject: Option<nat>, activePane: Option<nat>)

  /** `panes` of a project: those of its active workstream. */
  function ActivePanes(p: Project): seq<Pane> {
    if ActiveIndex(p).Some? then p.workstreams[ActiveIndex(p).value].panes else []
  }

  function FirstPane(p: Project): Option<nat> {
    if ActivePanes(p) == [] then None else Some(ActivePanes(p)[0].id)
  }

  function ProjectIndex(projects: seq<Project>, id: nat): (i: nat)
    ensures i <= |projects| && (i < |projects| ==> projects[i].id == id)
    ensures forall j :: 0 <= j < i ==> projects[j].id != id
  {
    ProjectFrom(projects, id, 0)
  }

  function ProjectFrom(projects: seq<Project>, id: nat, from: nat): (i: nat)
    requires from <= |projects|
    ensures from <= i <= |projects| && (i < |projects| ==> projects[i].id == id)
    ensures forall j :: from <= j < i ==> projects[j].id != id
    decreases |projects| - from
  {
    if from == |projects| || projects[from].id == id then from else ProjectFrom(projects, id, from + 1)
  }

  /** Step 4: the entry leaves the list, and the first remaining project takes over if it was the active one. */
  function Dropped(ws: Workspace, i: nat): Workspace
    requires i < |ws.projects|
  {
    var id := ws.projects[i].id;
    var rest := ws.projects[..i] + ws.projects[i + 1..];
    if ws.activeProject != Some(id) then ws.(projects := rest)
    else if rest == [] then Workspace([], None, None)
    else Activated(rest, 0)
  }

  /** The project at `i` flagged and selected, together with its first pane. */
  function Activated(projects: seq<Project>, i: nat): Workspace
    requires i < |projects|
  {
    Workspace(projects[i := projects[i].(isActive := true)], Some(projects[i].id), FirstPane(projects[i]))
  }

  datatype RemovalResult = RemovalResult(world: World, workspace: Workspace, failures: seq<RemovalFailure>)

  /** What `removeProject(id:options:)` does to the world and the workspace, for either probe. */
  function ProjectRemoval(w: World, ws: Workspace, id: nat, options: ProjectRemovalOptions,
                          probe: Probe): RemovalResult
  {
    var i := ProjectIndex(ws.projects, id);
    if i == |ws.projects| then RemovalResult(w, ws, [])
    else
      var o := RemoveArtifacts(w, ws.projects[i], options, probe);
      RemovalResult(o.world, if o.failures == [] then Dropped(ws, i) else ws, o.failures)
  }

  datatype WorkstreamResult = WorkstreamResult(world: World, project: Project, failures: seq<RemovalFailure>)

  /** What `removeWorkstream(id:from:options:)` does to the world and the project, for either probe. */
  function WorkstreamRemoval(w: World, p: Project, id: nat, options: WorkstreamRemovalOptions,
                             probe: Probe): WorkstreamResult
  {
    var i := IndexOf(p.workstreams, id);
    if i == |p.workstreams| then WorkstreamResult(w, p, [])
    else
      var o := RemoveWorkstreamArtifacts(w, p.workstreams[i], p.path, options, probe);
      if o.failures != [] then WorkstreamResult(o.world, p, o.failures)
      else if Removable(p, id) then WorkstreamResult(o.world, Removed(p, id), [])
      else WorkstreamResult(o.world, p, [RemovalFailure(p.workstreams[i].name, CannotRemoveDefault)])
  }

  /** `switchToProject`: all flags are cleared before the target is looked up. */
  function SwitchedTo(ws: Workspace, id: nat): Workspace {
    var i, cleared := ProjectIndex(ws.projects, id), Cleared(ws.projects);
    if i == |ws.projects| then ws.(projects := cleared)
    else Activated(cleared, i)
  }

  function Cleared(projects: seq<Project>): (r: seq<Project>)
    ensures |r| == |projects| && forall j :: 0 <= j < |r| ==> r[j] == projects[j].(isActive := false)
  {
    seq(|projects|, j requires 0 <= j < |projects| => projects[j].(isActive := false))
  }

  lemma {:induction false} FlagDoesNotMatter(p: Project)
    ensures FirstPane(p.(isActive := true)) == FirstPane(p)
  {
  }

  function AllWorkstreams(projects: seq<ProjectModel>): set<WorkstreamModel>
    reads projects
  {
    set p, w | p in projects && w in p.workstreams :: w
  }

  function ProjectViews(projects: seq<ProjectModel>): (r: seq<Project>)
    reads projects, AllWorkstreams(projects)
    ensures |r| == |projects| && forall i :: 0 <= i < |r| ==> r[i] == projects[i].View()
  {
    seq(|projects|, i requires 0 <= i < |projects| reads projects, AllWorkstreams(projects) =>
      assert forall w <- projects[i].workstreams :: w in AllWorkstreams(projects);
      projects[i].View())
  }

  class WorkspaceModel {
    var projects: seq<ProjectModel>
    var activeProjectID: Option<nat>
    var activePaneID: Option<nat>
    /** The directories, worktrees and branches the removals act on. */
    var world: World

    /** Identifiers are unique, and every project is well formed. */
    ghost predicate Valid()
      reads this, projects
    {
      && (forall i, j :: 0 <= i < j < |projects| ==> projects[i].id != projects[j].id)
      && (forall p <- projects :: p.Valid())
    }

    function View(): Workspace
      reads this, projects, AllWorkstreams(projects)
    {
      Workspace(ProjectViews(projects), activeProjectID, activePaneID)
    }

    method SwitchToProject(id: nat)
      requires Valid()
      modifies this`activeProjectID, this`activePaneID, projects`isActive
      ensures View() == SwitchedTo(old(View()), id)
    {
      var i := ProjectIndex(ProjectViews(projects), id);
      ClearFlags();
      if i < |projects| {
        Activate(i);
      }
    }

    method ClearFlags()
      requires Valid()
      modifies projects`isActive
      ensures ProjectViews(projects) == Cleared(old(ProjectViews(projects)))
    {
      for i := 0 to |projects|
        invariant forall j :: 0 <= j < |projects| ==>
          projects[j].isActive == if j < i then false else old(projects[j].isActive)
      {
        projects[i].isActive := false;
      }
    }

    method Activate(i: nat)
      requires Valid() && i < |projects|
      modifies this`activeProjectID, this`activePaneID, {projects[i]}`isActive
      ensures View() == Activated(old(ProjectViews(projects)), i)
    {
      ghost var views := ProjectViews(projects);
      projects[i].isActive := true;
      assert projects[i].View() == views[i].(isActive := true);
      assert ProjectViews(projects) == views[i := views[i].(isActive := true)];
      FlagDoesNotMatter(views[i]);
      activeProjectID := Some(projects[i].id);
      activePaneID := FirstPane(projects[i].View());
    }

    /** Tiered project removal. */
    method RemoveProject(id: nat, options: ProjectRemovalOptions) returns (failures: seq<RemovalFailure>)
      requires Valid()
      modifies this, projects`isActive
      ensures RemovalResult(world, View(), failures)
           == ProjectRemoval(old(world), old(View()), id, options, EffectiveRoot)
    {
      ghost var ws := View();
      var i := ProjectIndex(ProjectViews(projects), id);
      if i == |projects| {
        return [];
      }
      assert projects[i].View() == ws.projects[i];
      failures := RemoveArtifactSteps(projects[i], options);
      if failures != [] {
        return;
      }
      DropProject(i);
    }

    /** Steps 1 to 3. */
    method RemoveArtifactSteps(project: ProjectModel, options: ProjectRemovalOptions)
      returns (failures: seq<RemovalFailure>)
      requires Valid()
      modifies this`world
      ensures Outcome(world, failures) == RemoveArtifacts(old(world), old(project.View()), options, EffectiveRoot)
      ensures Valid() && View() == old(View())
    {
      ghost var p := project.View();
      failures := RemoveWorktreeDirs(project, options);
      assert project.View() == p;
      failures := RemoveBranches(project, options, failures);
      assert project.View() == p;
      failures := RemoveAppSupport(project, options, failures);
    }

    /** Step 1: worktree directories, skipping defaults and paths that no longer exist. */
    method RemoveWorktreeDirs(project: ProjectModel, options: ProjectRemovalOptions)
      returns (failures: seq<RemovalFailure>)
      modifies this`world
      ensures Outcome(world, failures) == AfterWorktrees(old(world), project.View(), options)
    {
      failures := [];
      ghost var wss := Views(project.workstreams);
      assert wss[..0] == [];
      for i := 0 to |project.workstreams|
        invariant Outcome(world, failures) == WorktreeSteps(Outcome(old(world), []), wss[..i], options)
      {
        assert wss[..i + 1][..i] == wss[..i];
        var ws := project.workstreams[i];
        if options.WantsWorktree(ws.id) && ws.worktreePath.Some? && !ws.isDefault
           && ws.worktreePath.value in world.dirs
        {
          var (after, result) := RemoveWorktree(world, ws.worktreePath.value, options.force);
          world := after;
          if result.Some? {
            failures := failures + [RemovalFailure(ws.worktreePath.value, result.value)];
          }
        }
      }
      assert wss[..|wss|] == wss;
    }

    /** Step 2: branches, in workstream order, each probed from its workstream's own root. */
    method RemoveBranches(project: ProjectModel, options: ProjectRemovalOptions, soFar: seq<RemovalFailure>)
      returns (failures: seq<RemovalFailure>)
      modifies this`world
      ensures Outcome(world, failures)
           == BranchSteps(Outcome(old(world), soFar), Views(project.workstreams), options, project.path, EffectiveRoot)
    {
      failures := soFar;
      ghost var wss := Views(project.workstreams);
      assert wss[..0] == [];
      for i := 0 to |project.workstreams|
        invariant Outcome(world, failures)
               == BranchSteps(Outcome(old(world), soFar), wss[..i], options, project.path, EffectiveRoot)
      {
        assert wss[..i + 1][..i] == wss[..i];
        var ws := project.workstreams[i];
        if options.WantsBranch(ws.id) && ws.branch.Some? {
          var repoRoot := ws.View().EffectiveRoot(project.path);
          if BranchExists(world, repoRoot, ws.branch.value) {
            var (after, result) := DeleteBranch(world, repoRoot, ws.branch.value);
            world := after;
            if result.Some? {
              failures := failures + [RemovalFailure(ws.branch.value, result.value)];
            }
          }
        }
      }
      assert wss[..|wss|] == wss;
    }

    /** Step 3: the per-project app-support directory. */
    method RemoveAppSupport(project: ProjectModel, options: ProjectRemovalOptions, soFar: seq<RemovalFailure>)
      returns (failures: seq<RemovalFailure>)
      modifies this`world
      ensures Outcome(world, failures)
           == AppSupportStep(Outcome(old(world), soFar), options.removeAppSupportDir, AppSupportDirectory(project.id))
    {
      failures := soFar;
      var dir := AppSupportDirectory(project.id);
      if options.removeAppSupportDir && dir in world.dirs {
        var (after, result) := RemoveItem(world, dir);
        world := after;
        if result.Some? {
          failures := failures + [RemovalFailure(dir, result.value)];
        }
      }
    }

    /** Step 4, reached only without failures. */
    method DropProject(i: nat)
      requires Valid() && i < |projects|
      modifies this`projects, this`activeProjectID, this`activePaneID, projects`isActive
      ensures View() == Dropped(old(View()), i) && world == old(world)
    {
      var id := projects[i].id;
      ghost var before := ProjectViews(projects);
      projects := projects[..i] + projects[i + 1..];
      ghost var rest := before[..i] + before[i + 1..];
      assert ProjectViews(projects) == rest;
      if activeProjectID == Some(id) {
        if projects == [] {
          activeProjectID := None;
          activePaneID := None;
        } else {
          Activate(0);
        }
      }
    }

    /** Tiered workstream removal; the in-memory step is the project's, and may refuse. */
    method RemoveWorkstream(workstreamID: nat, project: ProjectModel, options: WorkstreamRemovalOptions)
      returns (failures: seq<RemovalFailure>)
      requires project.Valid()
      modifies this`world, this`activePaneID, project, project.workstreams
      ensures WorkstreamResult(world, project.View(), failures)
           == WorkstreamRemoval(old(world), old(project.View()), workstreamID, options, EffectiveRoot)
      ensures
        var known := IndexOf(old(project.View()).workstreams, workstreamID) < |old(project.View()).workstreams|;
        var removed := known && failures == [];
        activePaneID == if removed && project.activeWorkstreamID.Some? && FirstPane(project.View()).Some?
                        then FirstPane(project.View()) else old(activePaneID)
    {
      var i := IndexOf(Views(project.workstreams), workstreamID);
      if i == |project.workstreams| {
        return [];
      }
      var ws := project.workstreams[i];
      failures := RemoveWorkstreamSteps(ws, project.path, options);
      if failures != [] {
        return;
      }
      var removed := project.RemoveWorkstream(workstreamID);
      if !removed {
        failures := [RemovalFailure(ws.name, CannotRemoveDefault)];
      } else if project.activeWorkstreamID.Some? && FirstPane(project.View()).Some? {
        activePaneID := FirstPane(project.View());
      }
    }

    /** Steps 1 and 2 for one workstream. */
    method RemoveWorkstreamSteps(ws: WorkstreamModel, path: string, options: WorkstreamRemovalOptions)
      returns (failures: seq<RemovalFailure>)
      modifies this`world
      ensures Outcome(world, failures) == RemoveWorkstreamArtifacts(old(world), ws.View(), path, options, EffectiveRoot)
    {
      failures := [];
      if options.removeWorktreeDir && ws.worktreePath.Some? && !ws.isDefault && ws.worktreePath.value in world.dirs {
        var (after, result) := RemoveWorktree(world, ws.worktreePath.value, options.force);
        world := after;
        if result.Some? {
          failures := failures + [RemovalFailure(ws.worktreePath.value, result.value)];
        }
      }
      if options.removeBranch && ws.branch.Some? {
        var repoRoot := ws.View().EffectiveRoot(path);
        if BranchExists(world, repoRoot, ws.branch.value) {
          var (after, result) := DeleteBranch(world, repoRoot, ws.branch.value);
          world := after;
          if result.Some? {
            failures := failures + [RemovalFailure(ws.branch.value, result.value)];
          }
        }
      }
    }
  }

  // ---------------------------------------------------------------------------------------------------
  // The commit point
  // ---------------------------------------------------------------------------------------------------

  ghost predicate DistinctProjects(ws: Workspace) {
    forall i, j :: 0 <= i < j < |ws.projects| ==> ws.projects[i].id != ws.projects[j].id
  }

  ghost predicate Has(ws: Workspace, id: nat) {
    exists i :: 0 <= i < |ws.projects| && ws.projects[i].id == id
  }

  lemma {:induction false} DroppedProjects(ws: Workspace, i: nat)
    requires DistinctProjects(ws) && i < |ws.projects|
    ensures !Has(Dropped(ws, i), ws.projects[i].id) && DistinctProjects(Dropped(ws, i))
    ensures |Dropped(ws, i).projects| == |ws.projects| - 1
    ensures forall j :: 0 <= j < |ws.projects| - 1 ==>
      Dropped(ws, i).projects[j].(isActive := true) == ws.projects[if j < i then j else j + 1].(isActive := true)
  {
    var rest, d := ws.projects[..i] + ws.projects[i + 1..], Dropped(ws, i).projects;
    assert forall j :: 0 <= j < |rest| ==> rest[j] == ws.projects[if j < i then j else j + 1];
    assert |d| == |rest| && forall j :: 0 <= j < |d| ==> d[j].(isActive := true) == rest[j].(isActive := true);
    assert forall j :: 0 <= j < |d| ==> d[j].id == rest[j].id;
  }

  /**
   For a known project: the entry is dropped exactly when no failure is returned; every other project keeps its
   place and content; and when it is dropped, every opted-in worktree and app-support directory is gone. Of the
   branches, dropped or not, exactly those are gone that are checked out nowhere after step 1 and that an opted-in
   workstream was probed for from a root still reachable then; once it is dropped, exactly those probed for.
   */
  lemma {:induction false} CommitPoint(w: World, ws: Workspace, i: nat, options: ProjectRemovalOptions, probe: Probe,
                                       k: nat)
    requires DistinctProjects(ws) && i < |ws.projects| && k < |ws.projects[i].workstreams|
    ensures
      var p := ws.projects[i];
      var r := ProjectRemoval(w, ws, p.id, options, probe);
      var stream, a := p.workstreams[k], AfterWorktrees(w, p, options).world;
      && (!Has(r.workspace, p.id) <==> r.failures == [])
      && (r.failures != [] ==> r.workspace == ws)
      && (forall q :: q != p.id ==> (Has(r.workspace, q) <==> Has(ws, q)))
      && (r.failures == [] ==>
            && (OptedWorktree(stream, options.WantsWorktree(stream.id)) ==> stream.worktreePath.value !in r.world.dirs)
            && (options.removeAppSupportDir ==> AppSupportDirectory(p.id) !in r.world.dirs))
      && (forall b <- w.branches :: b !in r.world.branches <==>
            !CheckedOut(a, b) && Probed(a, p.workstreams, options, p.path, probe, b))
      && (r.failures == [] ==>
            forall b <- w.branches :: b !in r.world.branches <==> Probed(a, p.workstreams, options, p.path, probe, b))
  {
    var p, a := ws.projects[i], AfterWorktrees(w, ws.projects[i], options);
    assert ProjectIndex(ws.projects, p.id) == i;
    ArtifactsGoneOrNamed(w, p, options, probe, k);
    var r := ProjectRemoval(w, ws, p.id, options, probe);
    forall b | b in w.branches
      ensures b !in r.world.branches <==>
        !CheckedOut(a.world, b) && Probed(a.world, p.workstreams, options, p.path, probe, b)
      ensures r.failures == [] && Probed(a.world, p.workstreams, options, p.path, probe, b) ==> b !in r.world.branches
    {
      ProjectBranchesExactly(w, p, options, probe, b);
      if r.failures == [] && Probed(a.world, p.workstreams, options, p.path, probe, b) {
        ProbedIsGone(w, p, options, probe, b);
      }
    }
    assert Has(ws, p.id);
    if r.failures == [] {
      DroppedProjects(ws, i);
      OthersStay(ws, i);
    }
  }

  /** The fallback to the default changes no identifier. */
  lemma {:induction false} RemovedIds(p: Project, id: nat)
    requires Removable(p, id)
    ensures var i, r := IndexOf(p.workstreams, id), Removed(p, id).workstreams;
      && |r| == |p.workstreams| - 1
      && forall j :: 0 <= j < |r| ==> r[j].id == p.workstreams[if j < i then j else j + 1].id
  {
  }

  lemma {:induction false} RemovedMembers(p: Project, id: nat, other: nat)
    requires DistinctIds(p.workstreams) && Removable(p, id)
    ensures Member(Removed(p, id), other) <==> Member(p, other) && other != id
  {
    var i, r := IndexOf(p.workstreams, id), Removed(p, id);
    RemovedIds(p, id);
    if Member(p, other) && other != id {
      var j :| 0 <= j < |p.workstreams| && p.workstreams[j].id == other;
      assert r.workstreams[if j < i then j else j - 1].id == other;
    }
    if Member(r, other) {
      var j :| 0 <= j < |r.workstreams| && r.workstreams[j].id == other;
      assert p.workstreams[if j < i then j else j + 1].id == other;
    }
  }

  /**
   The commit point of a workstream: a known one leaves the project exactly when no failure is returned, and nothing
   else about the membership changes; an opted-in worktree is gone or named; and once it has left, an opted-in branch is
   gone exactly if the probe for it worked.
   */
  lemma {:induction false} WorkstreamCommitPoint(w: World, p: Project, i: nat, options: WorkstreamRemovalOptions,
                                                 probe: Probe, other: nat)
    requires DistinctIds(p.workstreams) && i < |p.workstreams|
    ensures
      var stream := p.workstreams[i];
      var r := WorkstreamRemoval(w, p, stream.id, options, probe);
      && (!Member(r.project, stream.id) <==> r.failures == [])
      && (r.failures != [] ==> r.project == p)
      && (other != stream.id ==> (Member(r.project, other) <==> Member(p, other)))
      && (OptedWorktree(stream, options.removeWorktreeDir) ==>
            stream.worktreePath.value !in r.world.dirs || Named(r.failures, stream.worktreePath.value))
      && (r.failures == [] && options.removeBranch && stream.branch.Some? && stream.branch.value in w.branches ==>
            (stream.branch.value !in r.world.branches <==> !ProbeFails(w, stream, p.path, options, probe)))
  {
    var stream := p.workstreams[i];
    assert IndexOf(p.workstreams, stream.id) == i;
    assert Member(p, stream.id);
    if Removable(p, stream.id) {
      RemovedMembers(p, stream.id, other);
      RemovedMembers(p, stream.id, stream.id);
    }
    if OptedWorktree(stream, options.removeWorktreeDir) {
      WorktreeGoneOrNamed(w, stream, p.path, options, probe);
    }
    if options.removeBranch && stream.branch.Some? && stream.branch.value in w.branches {
      BranchFateExactly(w, stream, p.path, options, probe);
      StepFailures(w, stream, p.path, options, probe);
    }
  }

  lemma {:induction false} WorktreeGoneOrNamed(w: World, ws: Workstream, path: string,
                                               options: WorkstreamRemovalOptions, probe: Probe)
    requires OptedWorktree(ws, options.removeWorktreeDir)
    ensures var t := RemoveWorkstreamArtifacts(w, ws, path, options, probe);
      ws.worktreePath.value !in t.world.dirs || Named(t.failures, ws.worktreePath.value)
  {
    var mid := WorktreeStep(Outcome(w, []), ws, options.removeWorktreeDir, options.force);
    StepsAreLater(mid, ws, options.removeBranch, options.force, path, probe);
    assert Under(ws.worktreePath.value, ws.worktreePath.value);
    if mid.failures != [] {
      assert mid.failures[0].artifact == ws.worktreePath.value;
      NamedStays(mid, RemoveWorkstreamArtifacts(w, ws, path, options, probe), ws.worktreePath.value);
    }
  }

  lemma {:induction false} StepFailures(w: World, ws: Workstream, path: string, options: WorkstreamRemovalOptions,
                                        probe: Probe)
    ensures var mid := WorktreeStep(Outcome(w, []), ws, options.removeWorktreeDir, options.force);
      mid.failures <= RemoveWorkstreamArtifacts(w, ws, path, options, probe).failures
  {
    var mid := WorktreeStep(Outcome(w, []), ws, options.removeWorktreeDir, options.force);
    StepsAreLater(mid, ws, options.removeBranch, options.force, path, probe);
  }

  /** Without a failure, a branch that was probed for is gone. */
  lemma {:induction false} ProbedIsGone(w: World, p: Project, options: ProjectRemovalOptions, probe: Probe,
                                        branch: string)
    requires RemoveArtifacts(w, p, options, probe).failures == []
    requires Probed(AfterWorktrees(w, p, options).world, p.workstreams, options, p.path, probe, branch)
    ensures branch !in RemoveArtifacts(w, p, options, probe).world.branches
  {
    var a := AfterWorktrees(w, p, options).world;
    var ws :| ws in p.workstreams && options.WantsBranch(ws.id) && ws.branch == Some(branch)
              && Reaches(a, ProbeRoot(ws, p.path, probe));
    var k :| 0 <= k < |p.workstreams| && p.workstreams[k] == ws;
    ArtifactsGoneOrNamed(w, p, options, probe, k);
  }

  lemma {:induction false} OthersStay(ws: Workspace, i: nat)
    requires DistinctProjects(ws) && i < |ws.projects|
    ensures forall q :: q != ws.projects[i].id ==> (Has(Dropped(ws, i), q) <==> Has(ws, q))
  {
    var d := Dropped(ws, i);
    DroppedProjects(ws, i);
    assert forall j :: 0 <= j < |d.projects| ==> d.projects[j].id == ws.projects[if j < i then j else j + 1].id;
    forall q | q != ws.projects[i].id && Has(ws, q) ensures Has(d, q)
    {
      var j :| 0 <= j < |ws.projects| && ws.projects[j].id == q;
      assert d.projects[if j < i then j else j - 1].id == q;
    }
  }

  /** Once nothing refuses, a single call drops the project. */
  lemma {:induction false} OneCallDrops(w: World, ws: Workspace, i: nat, options: ProjectRemovalOptions, probe: Probe)
    requires DistinctProjects(ws) && i < |ws.projects| && NothingRefuses(w, ws.projects[i], options, probe)
    ensures
      var r := ProjectRemoval(w, ws, ws.projects[i].id, options, probe);
      r.failures == [] && !Has(r.workspace, ws.projects[i].id)
  {
    assert ProjectIndex(ws.projects, ws.projects[i].id) == i;
    OneCallSuffices(w, ws.projects[i], options, probe);
    DroppedProjects(ws, i);
  }

  /** For worktrees that do not nest, a call drops the project if and only if nothing refuses. */
  lemma {:induction false} OneCallDropsExactly(w: World, ws: Workspace, i: nat, options: ProjectRemovalOptions,
                                               probe: Probe)
    requires DistinctProjects(ws) && i < |ws.projects| && DoNotNest(ws.projects[i].workstreams, options)
    ensures !Has(ProjectRemoval(w, ws, ws.projects[i].id, options, probe).workspace, ws.projects[i].id)
       <==> NothingRefuses(w, ws.projects[i], options, probe)
  {
    assert ProjectIndex(ws.projects, ws.projects[i].id) == i;
    OneCallSufficesExactly(w, ws.projects[i], options, probe);
    DroppedProjects(ws, i);
    assert Has(ws, ws.projects[i].id);
  }

  /**
   A call to remove the project that opts in to the worktree. What the next call finds may differ in any way, except
   that nobody else has deleted that directory and the application has not moved.
   */
  ghost predicate RepeatedCall(p: Project, stream: Workstream, probe: Probe, w: World, ws: Workspace,
                               options: ProjectRemovalOptions, next: World, after: Workspace)
  {
    var r := ProjectRemoval(w, ws, p.id, options, probe);
    && OptedWorktree(stream, options.WantsWorktree(stream.id))
    && after == r.workspace && next.cwdInRepo == r.world.cwdInRepo
    && (stream.worktreePath.value in r.world.dirs ==> stream.worktreePath.value in next.dirs)
  }

  ghost predicate RepeatedCalls(p: Project, stream: Workstream, probe: Probe, worlds: seq<World>,
                                workspaces: seq<Workspace>, calls: seq<ProjectRemovalOptions>)
  {
    && |worlds| == |workspaces| == |calls| + 1
    && forall k :: 0 <= k < |calls| ==>
         RepeatedCall(p, stream, probe, worlds[k], workspaces[k], calls[k], worlds[k + 1], workspaces[k + 1])
  }

  /** From outside the repository no sequence of calls, with either probe, drops a project whose worktree is there. */
  lemma {:induction false} NeverDroppedFromOutside(p: Project, i: nat, probe: Probe, worlds: seq<World>,
                                                   workspaces: seq<Workspace>, calls: seq<ProjectRemovalOptions>,
                                                   j: nat)
    requires i < |p.workstreams| && p.workstreams[i].worktreePath.Some?
    requires RepeatedCalls(p, p.workstreams[i], probe, worlds, workspaces, calls)
    requires DistinctProjects(workspaces[0]) && j < |workspaces[0].projects| && workspaces[0].projects[j] == p
    requires !worlds[0].cwdInRepo && p.workstreams[i].worktreePath.value in worlds[0].dirs
    requires !Under(p.workstreams[i].worktreePath.value, AppSupportDirectory(p.id))
    ensures workspaces[|calls|] == workspaces[0] && Has(workspaces[|calls|], p.id)
    ensures !worlds[|calls|].cwdInRepo && p.workstreams[i].worktreePath.value in worlds[|calls|].dirs
    decreases |calls|
  {
    if calls == [] {
      assert workspaces[0].projects[j].id == p.id;
    } else {
      var n := |calls| - 1;
      var earlier, before := worlds[..n + 1], workspaces[..n + 1];
      NeverDroppedFromOutside(p, i, probe, earlier, before, calls[..n], j);
      assert RepeatedCall(p, p.workstreams[i], probe, worlds[n], workspaces[n], calls[n], worlds[n + 1],
        workspaces[n + 1]);
      assert ProjectIndex(workspaces[n].projects, p.id) == j;
      OutsideCallFails(worlds[n], p, calls[n], probe, i);
    }
  }

  /** As written, a dropped project can leave an opted-in branch behind that no later call can reach. */
  lemma {:induction false} DroppedWithBranchLeft(w: World, ws: Workspace, i: nat, options: ProjectRemovalOptions,
                                                 branch: string)
    requires DistinctProjects(ws) && i < |ws.projects|
    requires NothingRefuses(w, ws.projects[i], options, EffectiveRoot)
    requires OnOwnWorktree(w, ws.projects[i].workstreams, branch) && branch in w.branches
    ensures
      var r := ProjectRemoval(w, ws, ws.projects[i].id, options, EffectiveRoot);
      && branch in r.world.branches && !Has(r.workspace, ws.projects[i].id)
      && ProjectRemoval(r.world, r.workspace, ws.projects[i].id, options, EffectiveRoot) == r
  {
    assert ProjectIndex(ws.projects, ws.projects[i].id) == i;
    OneCallDrops(w, ws, i, options, EffectiveRoot);
    OwnBranchIsNeverDeleted(w, ws.projects[i], options, branch);
    var r := ProjectRemoval(w, ws, ws.projects[i].id, options, EffectiveRoot);
    assert ProjectIndex(r.workspace.projects, ws.projects[i].id) == |r.workspace.projects|;
  }

  // ---------------------------------------------------------------------------------------------------
  // The active project
  // ---------------------------------------------------------------------------------------------------

  /** The one flagged project is the active one; an empty workspace has none, and no active pane. */
  ghost predicate ActiveProjectInv(ws: Workspace) {
    && DistinctProjects(ws)
    && (ws.projects == [] ==> ws.activeProject.None? && ws.activePane.None?)
    && (ws.projects != [] ==> ws.activeProject.Some? && Has(ws, ws.activeProject.value))
    && forall i :: 0 <= i < |ws.projects| ==> (ws.projects[i].isActive <==> ws.activeProject == Some(ws.projects[i].id))
  }

  lemma {:induction false} RemovalKeepsActive(w: World, ws: Workspace, id: nat, options: ProjectRemovalOptions,
                                              probe: Probe)
    requires ActiveProjectInv(ws)
    ensures ActiveProjectInv(ProjectRemoval(w, ws, id, options, probe).workspace)
  {
    var i := ProjectIndex(ws.projects, id);
    if i < |ws.projects| {
      DroppedProjects(ws, i);
      OthersStay(ws, i);
      DroppedActive(ws, i);
    }
  }

  lemma {:induction false} DroppedActive(ws: Workspace, i: nat)
    requires ActiveProjectInv(ws) && i < |ws.projects|
    ensures ActiveProjectInv(Dropped(ws, i))
  {
    DroppedProjects(ws, i);
    if ws.activeProject == Some(ws.projects[i].id) {
      ActiveDropped(ws, i);
    } else {
      OtherDropped(ws, i);
    }
  }

  lemma {:induction false} OtherDropped(ws: Workspace, i: nat)
    requires ActiveProjectInv(ws) && i < |ws.projects| && ws.activeProject != Some(ws.projects[i].id)
    requires DistinctProjects(Dropped(ws, i))
    ensures ActiveProjectInv(Dropped(ws, i))
  {
    var d := Dropped(ws, i);
    OthersStay(ws, i);
    assert forall j :: 0 <= j < |d.projects| ==> d.projects[j] == ws.projects[if j < i then j else j + 1];
    assert Has(d, ws.activeProject.value);
  }

  lemma {:induction false} ActiveDropped(ws: Workspace, i: nat)
    requires ActiveProjectInv(ws) && i < |ws.projects| && ws.activeProject == Some(ws.projects[i].id)
    requires DistinctProjects(Dropped(ws, i))
    ensures ActiveProjectInv(Dropped(ws, i))
  {
    var d := Dropped(ws, i);
    var rest := ws.projects[..i] + ws.projects[i + 1..];
    assert forall j :: 0 <= j < |rest| ==> rest[j] == ws.projects[if j < i then j else j + 1] && !rest[j].isActive;
    if rest != [] {
      assert d.projects[0].id == rest[0].id && d.projects[0].isActive;
      assert forall j :: 1 <= j < |rest| ==> d.projects[j] == rest[j] && d.projects[j].id != d.projects[0].id;
      assert Has(d, rest[0].id);
    }
  }

  /** Switching keeps the invariant if and only if the project is known or there is none at all. */
  lemma {:induction false} SwitchKeepsActiveExactly(ws: Workspace, id: nat)
    requires ActiveProjectInv(ws)
    ensures ActiveProjectInv(SwitchedTo(ws, id)) <==> Has(ws, id) || ws.projects == []
  {
    var t, i := SwitchedTo(ws, id), ProjectIndex(ws.projects, id);
    assert forall j :: 0 <= j < |ws.projects| ==> t.projects[j].id == ws.projects[j].id;
    if i < |ws.projects| {
      assert t.projects[i].id == id;
    } else if ws.projects != [] {
      var a :| 0 <= a < |ws.projects| && ws.projects[a].id == ws.activeProject.value;
      assert !t.projects[a].isActive;
    }
  }
}
