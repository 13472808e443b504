/**
 Saving the workspace and loading it again, with migration of the older file format.
 */
module WorkspaceStorage {
  import opened Options
  import opened PaneModel
  import opened ProjectModel
  import opened WorkspaceModel

  // ---------------------------------------------------------------------------------------------------
  // The file
  // ---------------------------------------------------------------------------------------------------

  datatype PersistedWorkstream = PersistedWorkstream(
    name: string, isDefault: bool, branch: Option<string>, worktreePath: Option<string>, panes: seq<PersistedPane>)

  /** `panes` is the list of the first format; `workstreams` that of the second. */
  datatype PersistedProject = PersistedProject(
    name: string, bookmark: Option<string>, path: string, panes: Option<seq<PersistedPane>>,
    workstreams: Option<seq<PersistedWorkstream>>, activeWorkstreamIndex: Option<int>)

  datatype PersistedWorkspace = PersistedWorkspace(
    version: int, activeProjectIndex: Option<int>, activePaneIndex: Option<int>, projects: seq<PersistedProject>)

  // ---------------------------------------------------------------------------------------------------
  // Save
  // ---------------------------------------------------------------------------------------------------

  function PaneIndex(panes: seq<Pane>, id: nat, from: nat := 0): (i: nat)
    requires from <= |panes|
    ensures from <= i <= |panes| && (i < |panes| ==> panes[i].id == id)
    decreases |panes| - from
  {
    if from == |panes| || panes[from].id == id then from else PaneIndex(panes, id, from + 1)
  }

  /** `firstIndex` as an optional. */
  function Within(i: nat, n: nat): Option<nat> {
    if i < n then Some(i) else None
  }

  function PersistPanes(panes: seq<Pane>): (r: seq<PersistedPane>)
    ensures |r| == |panes|
  {
    seq(|panes|, i requires 0 <= i < |panes| => PersistPane(panes[i]))
  }

  function PersistWorkstream(ws: Workstream): PersistedWorkstream {
    PersistedWorkstream(ws.name, ws.isDefault, ws.branch, ws.worktreePath, PersistPanes(ws.panes))
  }

  function PersistWorkstreams(wss: seq<Workstream>): (r: seq<PersistedWorkstream>)
    ensures |r| == |wss|
  {
    seq(|wss|, i requires 0 <= i < |wss| => PersistWorkstream(wss[i]))
  }

  /** The position of the selected workstream; none if none is selected. */
  function SelectedIndex(p: Project): Option<nat> {
    if p.active.Some? then Within(IndexOf(p.workstreams, p.active.value), |p.workstreams|) else None
  }

  function PersistProject(p: Project): PersistedProject {
    PersistedProject(p.name, p.bookmark, p.path, None, Some(PersistWorkstreams(p.workstreams)), SelectedIndex(p))
  }

  function PersistProjects(projects: seq<Project>): (r: seq<PersistedProject>)
    ensures |r| == |projects|
  {
    seq(|projects|, i requires 0 <= i < |projects| => PersistProject(projects[i]))
  }

  function SelectedProject(w: Workspace): Option<nat> {
    if w.activeProject.Some? then Within(ProjectIndex(w.projects, w.activeProject.value), |w.projects|) else None
  }

  /** `activeProject`: the selected one if it is there, the first one if none is selected. */
  function EffectiveProject(w: Workspace): Option<nat> {
    if w.activeProject.Some? then SelectedProject(w) else Within(0, |w.projects|)
  }

  /** The position of the active pane among the panes of the active project. */
  function EffectivePane(w: Workspace): Option<nat> {
    if EffectiveProject(w).Some? && w.activePane.Some? then
      var panes := ActivePanes(w.projects[EffectiveProject(w).value]);
      Within(PaneIndex(panes, w.activePane.value), |panes|)
    else None
  }

  function Save(w: Workspace): PersistedWorkspace {
    PersistedWorkspace(2, SelectedProject(w), EffectivePane(w), PersistProjects(w.projects))
  }

  // ---------------------------------------------------------------------------------------------------
  // Load
  // ---------------------------------------------------------------------------------------------------

  /** Where a project is found: its path, and the bookmark it has from now on. */
  datatype Place = Place(path: string, bookmark: Option<string>)

  /** What the machine says of bookmarks and paths. */
  datatype Disk = Disk(bookmarks: map<string, Place>, readable: set<string>)

  /** Positions in the file that get an identifier. */
  datatype Slot =
    | ProjectSlot(k: nat)
    | DefaultSlot(k: nat)
    | WorkstreamSlot(k: nat, i: nat)
    | PaneSlot(k: nat, i: nat, j: nat)

  /** The identifiers drawn for one load. */
  type Ids = Slot -> nat

  ghost predicate Unique(ids: Ids) {
    forall a, b :: ids(a) == ids(b) ==> a == b
  }

  /** The bookmark first, then the path; nothing if neither leads anywhere. */
  function Locate(disk: Disk, pp: PersistedProject): Option<Place> {
    if pp.bookmark.Some? && pp.bookmark.value in disk.bookmarks then Some(disk.bookmarks[pp.bookmark.value])
    else if pp.path in disk.readable then Some(Place(pp.path, None))
    else None
  }

  function RestorePanes(panes: seq<PersistedPane>, ids: Ids, k: nat, i: nat): (r: seq<Pane>)
    ensures |r| == |panes|
  {
    seq(|panes|, j requires 0 <= j < |panes| => RestorePane(panes[j], ids(PaneSlot(k, i, j))))
  }

  function RestoreWorkstream(ws: PersistedWorkstream, ids: Ids, k: nat, i: nat): Workstream {
    Workstream(ids(WorkstreamSlot(k, i)), ws.name, ws.isDefault, ws.branch, ws.worktreePath,
      RestorePanes(ws.panes, ids, k, i), false)
  }

  function RestoreWorkstreams(wss: seq<PersistedWorkstream>, ids: Ids, k: nat): (r: seq<Workstream>)
    ensures |r| == |wss|
  {
    seq(|wss|, i requires 0 <= i < |wss| => RestoreWorkstream(wss[i], ids, k, i))
  }

  /** A stored index that can be used: the code compares with the count only. */
  function Usable(index: Option<int>, n: nat): Option<nat> {
    if index.Some? && 0 <= index.value < n then Some(index.value) else None
  }

  /** A negative index passes the comparison with the count and traps. */
  predicate Negative(index: Option<int>) {
    index.Some? && index.value < 0
  }

  predicate HasWorkstreams(pp: PersistedProject) {
    pp.workstreams.Some? && pp.workstreams.value != []
  }

  function OldPanes(pp: PersistedProject): seq<PersistedPane> {
    OrElse(pp.panes, [])
  }

  function RestoreProject(pp: PersistedProject, place: Place, ids: Ids, k: nat): Project {
    var id := ids(ProjectSlot(k));
    if HasWorkstreams(pp) then
      var wss := RestoreWorkstreams(pp.workstreams.value, ids, k);
      var a := OrElse(Usable(pp.activeWorkstreamIndex, |wss|), DefaultIndex(wss));
      Project(id, pp.name, place.path, place.bookmark, wss[a := wss[a].(isActive := true)], Some(wss[a].id), false)
    else
      var panes := RestorePanes(OldPanes(pp), ids, k, 0);
      Project(id, pp.name, place.path, place.bookmark,
              [Workstream(ids(DefaultSlot(k)), "default", true, None, None, panes, true)], None, false)
  }

  /** The projects of the file that can be located, from position `k` on. */
  function RestoreProjects(projects: seq<PersistedProject>, disk: Disk, ids: Ids, k: nat := 0): seq<Project>
    decreases |projects| - k
  {
    if |projects| <= k then []
    else
      var rest := RestoreProjects(projects, disk, ids, k + 1);
      match Locate(disk, projects[k])
      case None => rest
      case Some(place) => [RestoreProject(projects[k], place, ids, k)] + rest
  }

  /** The project that becomes active, and its pane. */
  function ActivateAt(projects: seq<Project>, index: Option<int>, pane: Option<int>): Workspace {
    if projects == [] then Workspace([], None, None)
    else match Usable(index, |projects|)
      case None => Activated(projects, 0)
      case Some(a) =>
        var w := Activated(projects, a);
        var panes := ActivePanes(projects[a]);
        match Usable(pane, |panes|)
        case None => w
        case Some(j) => w.(activePane := Some(panes[j].id))
  }

  datatype LoadResult = Nothing | Traps | Loaded(workspace: Workspace)

  predicate ProjectTraps(disk: Disk, pp: PersistedProject) {
    Locate(disk, pp).Some? && HasWorkstreams(pp) && Negative(pp.activeWorkstreamIndex)
  }

  predicate FileTraps(disk: Disk, f: PersistedWorkspace, restored: nat) {
    || (exists k :: 0 <= k < |f.projects| && ProjectTraps(disk, f.projects[k]))
    || Negative(f.activeProjectIndex)
    || (Usable(f.activeProjectIndex, restored).Some? && Negative(f.activePaneIndex))
  }

  function LoadOf(f: PersistedWorkspace, disk: Disk, ids: Ids): LoadResult {
    var projects := RestoreProjects(f.projects, disk, ids);
    if FileTraps(disk, f, |projects|) then Traps
    else if projects == [] then Nothing
    else Loaded(ActivateAt(projects, f.activeProjectIndex, f.activePaneIndex))
  }

  method Load(f: PersistedWorkspace, disk: Disk, ids: Ids) returns (r: LoadResult)
    ensures r == LoadOf(f, disk, ids)
  {
    var projects: seq<Project> := [];
    for k := 0 to |f.projects|
      invariant projects + RestoreProjects(f.projects, disk, ids, k) == RestoreProjects(f.projects, disk, ids)
      invariant forall j :: 0 <= j < k ==> !ProjectTraps(disk, f.projects[j])
    {
      var pp := f.projects[k];
      var place := Locate(disk, pp);
      if place == None {
        continue;
      }
      if ProjectTraps(disk, pp) {
        return Traps;
      }
      var project := LoadProject(pp, place.value, ids, k);
      ghost var rest := RestoreProjects(f.projects, disk, ids, k + 1);
      assert projects + ([project] + rest) == (projects + [project]) + rest;
      projects := projects + [project];
    }
    assert projects + [] == projects;
    if Negative(f.activeProjectIndex)
      || (Usable(f.activeProjectIndex, |projects|).Some? && Negative(f.activePaneIndex))
    {
      return Traps;
    }
    if projects == [] {
      return Nothing;
    }
    return Loaded(ActivateAt(projects, f.activeProjectIndex, f.activePaneIndex));
  }

  method LoadProject(pp: PersistedProject, place: Place, ids: Ids, k: nat) returns (project: Project)
    ensures project == RestoreProject(pp, place, ids, k)
  {
    var id := ids(ProjectSlot(k));
    var def := Workstream(ids(DefaultSlot(k)), "default", true, None, None, [], true);
    project := Project(id, pp.name, place.path, place.bookmark, [def], None, false);
    if HasWorkstreams(pp) {
      var wss := LoadWorkstreams(pp.workstreams.value, ids, k);
      var a := if Usable(pp.activeWorkstreamIndex, |wss|).Some? then pp.activeWorkstreamIndex.value
        else DefaultIndex(wss);
      project := project.(workstreams := wss[a := wss[a].(isActive := true)], active := Some(wss[a].id));
    } else if OldPanes(pp) != [] {
      def := def.(panes := RestorePanes(OldPanes(pp), ids, k, 0));
      project := project.(workstreams := [def]);
    } else {
      assert RestorePanes(OldPanes(pp), ids, k, 0) == [];
    }
  }

  method LoadWorkstreams(wss: seq<PersistedWorkstream>, ids: Ids, k: nat) returns (restored: seq<Workstream>)
    ensures restored == RestoreWorkstreams(wss, ids, k)
  {
    restored := [];
    for i := 0 to |wss|
      invariant restored == RestoreWorkstreams(wss, ids, k)[..i]
    {
      restored := restored + [RestoreWorkstream(wss[i], ids, k, i)];
    }
  }
}
