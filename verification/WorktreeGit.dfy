/** The world the removals act on. */
module WorktreeGit {
  // One repository with its worktrees and branches, and the directories on disk. Git itself is represented by the
  // conditions under which its commands succeed and what they then change.

  import opened Options

  /** `head`: the branch checked out there. `dirty`: holds changes `git worktree remove` would lose. */
  datatype Worktree = Worktree(head: string, dirty: bool, locked: bool)

  /**
   `dirs` are the directories that exist; `undeletable` those the file system refuses to remove. `cwdInRepo`:
   the application's own working directory lies in the repository, which matters to the one git command that is
   run without naming a directory.
   */
  datatype World = World(root: string, rootHead: string, worktrees: map<string, Worktree>, branches: set<string>,
                         dirs: set<string>, undeletable: set<string>, cwdInRepo: bool)

  datatype Reason = WorktreeRemoveFailed | BranchDeleteFailed | FileRemoveFailed | CannotRemoveDefault

  /** What the dialog shows: the artifact by name, and why it stayed. */
  datatype RemovalFailure = RemovalFailure(artifact: string, reason: Reason)

  predicate Under(dir: string, path: string) {
    dir == path || path + "/" <= dir
  }

  function DirsWithout(dirs: set<string>, path: string): set<string> {
    set d | d in dirs && !Under(d, path)
  }

  /** `git -C path` runs in this repository: the directory exists, inside the main or as a linked worktree. */
  predicate Reaches(w: World, path: string) {
    path in w.dirs && (Under(path, w.root) || path in w.worktrees)
  }

  predicate CheckedOut(w: World, branch: string) {
    w.rootHead == branch || exists path :: path in w.worktrees && w.worktrees[path].head == branch
  }

  /** `rev-parse --verify refs/heads/<branch>`: false as well when the directory cannot be reached. */
  predicate BranchExists(w: World, repoPath: string, branch: string) {
    Reaches(w, repoPath) && branch in w.branches
  }

  /** `git branch -D`: refuses a branch that is checked out anywhere. */
  function DeleteBranch(w: World, repoPath: string, branch: string): (World, Option<Reason>) {
    if BranchExists(w, repoPath, branch) && !CheckedOut(w, branch) then (w.(branches := w.branches - {branch}), None)
    else (w, Some(BranchDeleteFailed))
  }

  /** `git worktree remove <path> [--force]`: one `--force` overrides changes but not a lock. */
  predicate CanRemoveWorktree(w: World, path: string, force: bool) {
    && w.cwdInRepo && path in w.worktrees && path in w.dirs
    && !w.worktrees[path].locked && (force || !w.worktrees[path].dirty)
  }

  function RemoveWorktree(w: World, path: string, force: bool): (World, Option<Reason>) {
    if CanRemoveWorktree(w, path, force) then
      (w.(worktrees := w.worktrees - {path}, dirs := DirsWithout(w.dirs, path)), None)
    else (w, Some(WorktreeRemoveFailed))
  }

  /** `FileManager.removeItem`. */
  function RemoveItem(w: World, path: string): (World, Option<Reason>) {
    if path in w.undeletable then (w, Some(FileRemoveFailed)) else (w.(dirs := DirsWithout(w.dirs, path)), None)
  }

  // ---------------------------------------------------------------------------------------------------
  // What remains
  // ---------------------------------------------------------------------------------------------------

  /** Nothing has come into being, and what cannot change has not. */
  ghost predicate Shrunk(before: World, after: World) {
    && after.root == before.root && after.rootHead == before.rootHead
    && after.undeletable == before.undeletable && after.cwdInRepo == before.cwdInRepo
    && after.dirs <= before.dirs && after.branches <= before.branches
    && (forall path :: path in after.worktrees ==>
          path in before.worktrees && after.worktrees[path] == before.worktrees[path])
  }

  lemma {:induction false} ShrunkSteps(w: World, path: string, branch: string, force: bool)
    ensures Shrunk(w, RemoveWorktree(w, path, force).0)
    ensures Shrunk(w, DeleteBranch(w, path, branch).0)
    ensures Shrunk(w, RemoveItem(w, path).0)
  {
  }
}
