/** Creating a workstream, and taking it away. */
module WorkstreamCreation {
  import opened Options
  import opened PaneModel
  import opened ProjectModel
  import opened WorktreeGit
  import opened Removal

  datatype GitError = NotGitRepo | DirectoryCreateFailed | BranchAlreadyExists(branch: string) | WorktreeCreateFailed

  datatype Created = Created(world: World, path: string) | Refused(world: World, error: GitError)

  /**
   What the request meets outside: the date, whether a directory can be made, which branch names git takes, which
   directories hold nothing.
   */
  datatype Surroundings =
    Surroundings(date: string, canMakeDirectory: bool, validName: string -> bool, isEmpty: string -> bool)

  function AutoBranch(date: string, slug: string): string {
    "feature/" + date + "-" + slug
  }

  function WorktreesDir(root: string): string {
    root + "/.worktrees"
  }

  function WorktreePath(root: string, slug: string): string {
    WorktreesDir(root) + "/" + slug
  }

  /** There is something at the path that git will not put a worktree over: an empty directory it will. */
  predicate Occupied(w: World, path: string, s: Surroundings) {
    path in w.dirs && !s.isEmpty(path)
  }

  /** `git worktree add <path> -b <branch>`. */
  predicate CanAddWorktree(w: World, path: string, branch: string, s: Surroundings) {
    !Occupied(w, path, s) && path !in w.worktrees && branch !in w.branches && s.validName(branch)
  }

  function AddWorktree(w: World, path: string, branch: string): World {
    w.(dirs := w.dirs + {path}, worktrees := w.worktrees[path := Worktree(branch, false, false)],
       branches := w.branches + {branch})
  }

  /** `createWorktree`. An existing directory is reported like an existing branch: both messages say so alike. */
  function CreateWorktree(w: World, root: string, slug: string, branch: Option<string>, s: Surroundings): Created {
    if !Reaches(w, root) then Refused(w, NotGitRepo)
    else if WorktreesDir(root) !in w.dirs && !s.canMakeDirectory then Refused(w, DirectoryCreateFailed)
    else
      var u := w.(dirs := w.dirs + {WorktreesDir(root)});
      var path := WorktreePath(root, slug);
      var name := if branch.Some? then branch.value else AutoBranch(s.date, slug);
      if CanAddWorktree(u, path, name, s) then Created(AddWorktree(u, path, name), path)
      else if Occupied(u, path, s) || name in u.branches then Refused(u, BranchAlreadyExists(name))
      else Refused(u, WorktreeCreateFailed)
  }

  /** The branch the record names: the date is read a second time, after git has run. */
  function RecordedBranch(branch: Option<string>, slug: string, dateAfter: string): string {
    if branch.Some? && branch.value != "" then branch.value else AutoBranch(dateAfter, slug)
  }

  function NewWorkstream(id: nat, name: string, branch: string, path: string, pane: Pane): Workstream {
    Workstream(id, name, false, Some(branch), Some(path), [pane.(workingDirectory := path)], false)
  }

  datatype Addition = Addition(world: World, project: Project, workstream: Option<Workstream>, error: Option<GitError>)

  /** `addWorkstream(name:branch:to:)`. */
  function AddWorkstream(w: World, p: Project, name: string, slug: string, branch: Option<string>, s: Surroundings,
                         dateAfter: string, id: nat, pane: Pane): Addition
  {
    match CreateWorktree(w, p.path, slug, branch, s)
    case Refused(u, error) => Addition(u, p, None, Some(error))
    case Created(u, path) =>
      var ws := NewWorkstream(id, name, RecordedBranch(branch, slug, dateAfter), path, pane);
      Addition(u, Added(p, ws), Some(ws), None)
  }

  // ---------------------------------------------------------------------------------------------------
  // What is asked of git, and what is recorded
  // ---------------------------------------------------------------------------------------------------

  /** `git worktree add` takes a path without contents that is no worktree, and a new valid branch. */
  ghost predicate GitTakes(w: World, path: string, branch: string, s: Surroundings) {
    && (path in w.dirs ==> s.isEmpty(path)) && path !in w.worktrees
    && branch !in w.branches && s.validName(branch)
  }

  /**
   The request by its outcome: the root has to be in the repository, the parent directory there or possible, and git has
   to take the place under it and the branch, which is the one asked for or one made of the date and the slug. Git says
   of a place with contents and of a known branch that they exist; anything else it refuses is its own affair.
   */
  lemma {:induction false} CreationExactly(w: World, root: string, slug: string, branch: Option<string>,
                                           s: Surroundings)
    ensures
      var parent := root + "/.worktrees";
      var u, path := w.(dirs := w.dirs + {parent}), parent + "/" + slug;
      var name := if branch.Some? then branch.value else "feature/" + s.date + "-" + slug;
      var r := CreateWorktree(w, root, slug, branch, s);
      && (!Reaches(w, root) ==> r == Refused(w, NotGitRepo))
      && (Reaches(w, root) && parent !in w.dirs && !s.canMakeDirectory ==> r == Refused(w, DirectoryCreateFailed))
      && (Reaches(w, root) && (parent in w.dirs || s.canMakeDirectory) ==>
            && (GitTakes(u, path, name, s) <==> r.Created?)
            && (r.Created? ==>
                  r.path == path && r.world == u.(dirs := u.dirs + {path}, branches := u.branches + {name},
                                                  worktrees := u.worktrees[path := Worktree(name, false, false)]))
            && (r.Refused? ==>
                  r.world == u && r.error == if (path in u.dirs && !s.isEmpty(path)) || name in w.branches
                                             then BranchAlreadyExists(name) else WorktreeCreateFailed))
  {
  }

  /**
   What a successful request records: a workstream that is not the default one, of the name given, at the new worktree,
   with one terminal there; it comes last, is selected and alone flagged. An empty name for the branch counts as none,
   and the date may be another by then.
   */
  lemma {:induction false} RecordExactly(w: World, p: Project, name: string, slug: string, branch: Option<string>,
      s: Surroundings, dateAfter: string, id: nat, pane: Pane)
    requires CreateWorktree(w, p.path, slug, branch, s).Created?
    ensures
      var r := AddWorkstream(w, p, name, slug, branch, s, dateAfter, id, pane);
      var made, n := CreateWorktree(w, p.path, slug, branch, s), |p.workstreams|;
      && r.world == made.world && r.error == None && r.workstream.Some? && |r.project.workstreams| == n + 1
      && r.project.active == Some(id)
      && (forall j :: 0 <= j < n ==>
            r.project.workstreams[j] == p.workstreams[j].(isActive := p.workstreams[j].id == id))
      && var ws := r.project.workstreams[n];
      && ws.id == id && ws.name == name && !ws.isDefault && ws.isActive && ws == r.workstream.value.(isActive := true)
      && ws.worktreePath == Some(made.path)
      && ws.branch == Some(if branch.Some? && branch.value != "" then branch.value
                           else "feature/" + dateAfter + "-" + slug)
      && |ws.panes| == 1 && ws.panes[0] == pane.(workingDirectory := ws.panes[0].workingDirectory)
      && ws.panes[0].workingDirectory == made.path
  {
  }

  // ---------------------------------------------------------------------------------------------------
  // Creation and removal
  // ---------------------------------------------------------------------------------------------------

  /** What git keeps: whatever is checked out is a branch. */
  ghost predicate GitSound(w: World) {
    && w.rootHead in w.branches
    && forall path <- w.worktrees :: w.worktrees[path].head in w.branches
  }

  /** The main checkout of a reachable repository, and nothing on the disk inside the place of the new worktree. */
  ghost predicate Ready(w: World, root: string, slug: string) {
    && GitSound(w) && root == w.root
    && forall d <- w.dirs :: Under(d, WorktreePath(root, slug)) ==> d == WorktreePath(root, slug)
  }

  function MadeBranch(branch: Option<string>, slug: string, s: Surroundings): string {
    if branch.Some? then branch.value else AutoBranch(s.date, slug)
  }

  /** The world of a successful creation, made of what was there and what was added. */
  lemma {:induction false} CreationAdds(w: World, p: Project, slug: string, branch: Option<string>, s: Surroundings)
    requires Ready(w, p.path, slug) && CreateWorktree(w, p.path, slug, branch, s).Created?
    ensures var u := CreateWorktree(w, p.path, slug, branch, s).world;
      var path, made := WorktreePath(p.path, slug), MadeBranch(branch, slug, s);
      && u.worktrees == w.worktrees[path := Worktree(made, false, false)] && path !in w.worktrees
      && u.branches == w.branches + {made} && made !in w.branches
      && u.dirs == w.dirs + {WorktreesDir(p.path), path}
      && u.root == w.root && u.rootHead == w.rootHead && u.cwdInRepo == w.cwdInRepo
      && (CanRemoveWorktree(u, path, true) <==> w.cwdInRepo) && p.path in w.dirs
      && (forall q <- u.worktrees :: q != path ==> u.worktrees[q].head != made) && u.rootHead != made
  {
  }

  /** From inside the repository, removing a fresh worktree takes its directory away and nothing else. */
  lemma {:induction false} FreshWorktreeGoes(w: World, p: Project, slug: string, branch: Option<string>,
                                             s: Surroundings)
    requires Ready(w, p.path, slug) && CreateWorktree(w, p.path, slug, branch, s).Created? && w.cwdInRepo
    ensures var u, path := CreateWorktree(w, p.path, slug, branch, s).world, WorktreePath(p.path, slug);
      RemoveWorktree(u, path, true)
        == (u.(worktrees := w.worktrees, dirs := w.dirs - {path} + {WorktreesDir(p.path)}), None)
  {
    CreationAdds(w, p, slug, branch, s);
    var u, path := CreateWorktree(w, p.path, slug, branch, s).world, WorktreePath(p.path, slug);
    assert u.worktrees - {path} == w.worktrees;
    assert !Under(WorktreesDir(p.path), path) && Under(path, path);
    assert DirsWithout(u.dirs, path) == w.dirs - {path} + {WorktreesDir(p.path)};
  }

  /** The artifact steps of the removal of a workstream just created, both boxes ticked, forced. */
  function Undone(w: World, p: Project, name: string, slug: string, branch: Option<string>, s: Surroundings,
                  dateAfter: string, id: nat, pane: Pane, probe: Probe): Outcome
  {
    var added := AddWorkstream(w, p, name, slug, branch, s, dateAfter, id, pane);
    if added.workstream.Some? then
      RemoveWorkstreamArtifacts(added.world, added.workstream.value, p.path,
                                WorkstreamRemovalOptions(true, true, true), probe)
    else Outcome(added.world, [])
  }

  /** From outside the repository the removal fails, with either probe: worktree and branch both stay. */
  lemma {:induction false} RemovalFromOutside(w: World, p: Project, name: string, slug: string,
      branch: Option<string>, s: Surroundings, dateAfter: string, id: nat, pane: Pane, probe: Probe)
    requires Ready(w, p.path, slug) && CreateWorktree(w, p.path, slug, branch, s).Created? && !w.cwdInRepo
    ensures
      var o := Undone(w, p, name, slug, branch, s, dateAfter, id, pane, probe);
      var u, path := CreateWorktree(w, p.path, slug, branch, s).world, WorktreePath(p.path, slug);
      var made := MadeBranch(branch, slug, s);
      && o.failures != [] && o.failures[0] == RemovalFailure(path, WorktreeRemoveFailed)
      && path in o.world.dirs && path in o.world.worktrees && made in o.world.branches
      && (RecordedBranch(branch, slug, dateAfter) == made ==>
            o == Outcome(u, [RemovalFailure(path, WorktreeRemoveFailed), RemovalFailure(made, BranchDeleteFailed)]))
  {
    CreationAdds(w, p, slug, branch, s);
    var u, path := CreateWorktree(w, p.path, slug, branch, s).world, WorktreePath(p.path, slug);
    assert u.worktrees[path].head == MadeBranch(branch, slug, s);
    assert Under(p.path, u.root);
  }

  /**
   Probing at the project root, removal undoes creation: afterwards the repository is what it was and only the empty
   parent directory is left; exactly if the application runs inside the repository, the record names the branch that was
   made, and no empty directory was in the place of the worktree. The record need not name it: the date in the name is
   read twice, and the day may change in between.
   */
  lemma {:induction false} RemovalUndoesCreationExactly(w: World, p: Project, name: string, slug: string,
      branch: Option<string>, s: Surroundings, dateAfter: string, id: nat, pane: Pane)
    requires Ready(w, p.path, slug) && CreateWorktree(w, p.path, slug, branch, s).Created?
    ensures
      var o := Undone(w, p, name, slug, branch, s, dateAfter, id, pane, ProjectRoot);
      o == Outcome(w.(dirs := w.dirs + {WorktreesDir(p.path)}), [])
      <==> w.cwdInRepo && RecordedBranch(branch, slug, dateAfter) == MadeBranch(branch, slug, s)
           && WorktreePath(p.path, slug) !in w.dirs
  {
    CreationAdds(w, p, slug, branch, s);
    if w.cwdInRepo {
      FreshWorktreeGoes(w, p, slug, branch, s);
      var made, named := MadeBranch(branch, slug, s), RecordedBranch(branch, slug, dateAfter);
      var o := Undone(w, p, name, slug, branch, s, dateAfter, id, pane, ProjectRoot);
      assert WorktreePath(p.path, slug) !in o.world.dirs;
      if named == made {
        assert w.branches + {made} - {made} == w.branches;
        assert WorktreePath(p.path, slug) !in w.dirs ==> w.dirs - {WorktreePath(p.path, slug)} == w.dirs;
      } else {
        assert made in o.world.branches;
      }
    } else {
      RemovalFromOutside(w, p, name, slug, branch, s, dateAfter, id, pane, ProjectRoot);
    }
  }

  /**
   As written, removal never undoes creation. From inside the repository it reports success, the worktree is gone, and
   the branch that was made stays. From outside it reports a failure, and worktree and branch stay. Either way,
   creating the workstream again on the same day is then refused.
   */
  lemma {:induction false} RemovalAsWrittenLeavesTheBranch(w: World, p: Project, name: string, slug: string,
      branch: Option<string>, s: Surroundings, dateAfter: string, id: nat, pane: Pane)
    requires Ready(w, p.path, slug) && CreateWorktree(w, p.path, slug, branch, s).Created?
    ensures
      var o := Undone(w, p, name, slug, branch, s, dateAfter, id, pane, EffectiveRoot);
      var made := MadeBranch(branch, slug, s);
      && made in o.world.branches
      && (o.failures == [] <==> w.cwdInRepo)
      && (WorktreePath(p.path, slug) in o.world.dirs <==> !w.cwdInRepo)
      && (w.cwdInRepo ==> o.world == w.(dirs := w.dirs - {WorktreePath(p.path, slug)} + {WorktreesDir(p.path)},
                                        branches := w.branches + {made}))
      && CreateWorktree(o.world, p.path, slug, branch, s) == Refused(o.world, BranchAlreadyExists(made))
  {
    CreationAdds(w, p, slug, branch, s);
    var o := Undone(w, p, name, slug, branch, s, dateAfter, id, pane, EffectiveRoot);
    if w.cwdInRepo {
      FreshWorktreeGoes(w, p, slug, branch, s);
      assert WorktreePath(p.path, slug) !in o.world.dirs;
    } else {
      RemovalFromOutside(w, p, name, slug, branch, s, dateAfter, id, pane, EffectiveRoot);
    }
    assert o.world.dirs + {WorktreesDir(p.path)} == o.world.dirs;
  }

  /** A refused creation changes nothing but, perhaps, making the parent directory, and adds no workstream. */
  lemma {:induction false} RefusalChangesNothing(w: World, p: Project, name: string, slug: string,
      branch: Option<string>, s: Surroundings, dateAfter: string, id: nat, pane: Pane)
    requires AddWorkstream(w, p, name, slug, branch, s, dateAfter, id, pane).error.Some?
    ensures var a := AddWorkstream(w, p, name, slug, branch, s, dateAfter, id, pane);
      && a.project == p && a.workstream == None
      && (a.world == w || (a.world == w.(dirs := w.dirs + {WorktreesDir(p.path)}) && Reaches(w, p.path)))
  {
  }
}
