/** What any file is loaded to. */
module LoadedFiles {
  // Files of both formats, whoever wrote them: which projects are found, what each of them comes to, what is selected,
  // and which files cannot be loaded. Stated on the fields of the file and of the workspace.

  import opened Options
  import opened PaneModel
  import opened ProjectModel
  import opened WorkspaceModel
  import opened WorkspaceStorage
  import opened WorkspaceRoundTrip
  import opened WorkspacePersistence
  import opened Selection

  // ---------------------------------------------------------------------------------------------------
  // One project
  // ---------------------------------------------------------------------------------------------------

  predicate Resolves(disk: Disk, pp: PersistedProject) {
    pp.bookmark.Some? && pp.bookmark.value in disk.bookmarks
  }

  /** The bookmark leads somewhere, or the path can be read. */
  predicate IsFound(disk: Disk, pp: PersistedProject) {
    Resolves(disk, pp) || pp.path in disk.readable
  }

  /** Where the bookmark leads, with the bookmark made anew; else at the stored path, without a bookmark. */
  predicate StandsAt(disk: Disk, pp: PersistedProject, p: Project) {
    if Resolves(disk, pp) then
      p.path == disk.bookmarks[pp.bookmark.value].path && p.bookmark == disk.bookmarks[pp.bookmark.value].bookmark
    else p.path == pp.path && p.bookmark == None
  }

  lemma {:induction false} LocateExactly(disk: Disk, pp: PersistedProject)
    ensures Locate(disk, pp).Some? <==> IsFound(disk, pp)
    ensures Locate(disk, pp).Some? && Resolves(disk, pp) ==> Locate(disk, pp).value == disk.bookmarks[pp.bookmark.value]
    ensures Locate(disk, pp).Some? && !Resolves(disk, pp) ==>
      Locate(disk, pp).value.path == pp.path && Locate(disk, pp).value.bookmark == None
  {
  }

  /** The panes of the records, in order. */
  ghost predicate HoldsPanes(panes: seq<Pane>, records: seq<PersistedPane>) {
    |panes| == |records| && forall j :: 0 <= j < |panes| ==> panes[j] == RestorePane(records[j], panes[j].id)
  }

  /** A workstream of the file, with its panes. */
  ghost predicate HoldsWorkstream(ws: Workstream, r: PersistedWorkstream) {
    ws.name == r.name && ws.isDefault == r.isDefault && ws.branch == r.branch && ws.worktreePath == r.worktreePath
    && HoldsPanes(ws.panes, r.panes)
  }

  /** The stored position if there is such a workstream; else the first default one, or else the first. */
  ghost predicate IsChosen(index: Option<int>, wss: seq<Workstream>, a: nat) {
    if index.Some? && 0 <= index.value < |wss| then a == index.value else IsFallback(wss, a)
  }

  /** The second format: the workstreams of the file, one of them flagged and selected. */
  ghost predicate HoldsWorkstreams(p: Project, records: seq<PersistedWorkstream>, index: Option<int>) {
    && |p.workstreams| == |records|
    && (forall i :: 0 <= i < |records| ==> HoldsWorkstream(p.workstreams[i], records[i]))
    && exists a :: IsChosen(index, p.workstreams, a) && FlaggedAt(p, a)
  }

  ghost predicate FlaggedAt(p: Project, a: nat) {
    && a < |p.workstreams| && p.active == Some(p.workstreams[a].id)
    && forall i :: 0 <= i < |p.workstreams| ==> (p.workstreams[i].isActive <==> i == a)
  }

  /** The first format, and a project without workstreams: the panes in a workstream of their own, none selected. */
  ghost predicate HoldsOldPanes(p: Project, records: seq<PersistedPane>) {
    && p.active == None && |p.workstreams| == 1
    && var ws := p.workstreams[0];
    && ws.name == "default" && ws.isDefault && ws.branch == None && ws.worktreePath == None && ws.isActive
    && HoldsPanes(ws.panes, records)
  }

  ghost predicate IsLoaded(disk: Disk, pp: PersistedProject, p: Project) {
    && p.name == pp.name && StandsAt(disk, pp, p)
    && if pp.workstreams.Some? && pp.workstreams.value != []
       then HoldsWorkstreams(p, pp.workstreams.value, pp.activeWorkstreamIndex)
       else HoldsOldPanes(p, if pp.panes.Some? then pp.panes.value else [])
  }

  lemma {:induction false} PanesHeld(records: seq<PersistedPane>, ids: Ids, k: nat, i: nat)
    ensures HoldsPanes(RestorePanes(records, ids, k, i), records)
  {
    var panes := RestorePanes(records, ids, k, i);
    assert forall j :: 0 <= j < |panes| ==>
      panes[j] == RestorePane(records[j], ids(PaneSlot(k, i, j))) && panes[j].id == ids(PaneSlot(k, i, j));
  }

  lemma {:induction false} ProjectLoaded(disk: Disk, pp: PersistedProject, ids: Ids, k: nat)
    requires IsFound(disk, pp)
    ensures Locate(disk, pp).Some? && IsLoaded(disk, pp, RestoreProject(pp, Locate(disk, pp).value, ids, k))
    ensures !RestoreProject(pp, Locate(disk, pp).value, ids, k).isActive
  {
    LocateExactly(disk, pp);
    var p := RestoreProject(pp, Locate(disk, pp).value, ids, k);
    if HasWorkstreams(pp) {
      WorkstreamsLoaded(pp, Locate(disk, pp).value, ids, k);
    } else {
      PanesHeld(OldPanes(pp), ids, k, 0);
    }
  }

  lemma {:induction false} WorkstreamsLoaded(pp: PersistedProject, place: Place, ids: Ids, k: nat)
    requires HasWorkstreams(pp)
    ensures HoldsWorkstreams(RestoreProject(pp, place, ids, k), pp.workstreams.value, pp.activeWorkstreamIndex)
  {
    var records, p := pp.workstreams.value, RestoreProject(pp, place, ids, k);
    var wss := RestoreWorkstreams(records, ids, k);
    var a := OrElse(Usable(pp.activeWorkstreamIndex, |wss|), DefaultIndex(wss));
    forall i | 0 <= i < |records| ensures HoldsWorkstream(p.workstreams[i], records[i])
    {
      PanesHeld(records[i].panes, ids, k, i);
      assert p.workstreams[i] == wss[i].(isActive := p.workstreams[i].isActive);
    }
    assert forall i :: 0 <= i < |wss| ==> p.workstreams[i].isDefault == wss[i].isDefault;
    FallbackIsUnique(wss, DefaultIndex(wss));
    assert IsFallback(p.workstreams, DefaultIndex(wss));
    assert IsChosen(pp.activeWorkstreamIndex, p.workstreams, a) && FlaggedAt(p, a);
  }

  // ---------------------------------------------------------------------------------------------------
  // The whole file
  // ---------------------------------------------------------------------------------------------------

  /** The positions of the projects that are found, ascending. */
  ghost predicate Finds(f: PersistedWorkspace, disk: Disk, at: seq<nat>) {
    && (forall q :: 0 <= q < |at| ==> at[q] < |f.projects|)
    && (forall q, r :: 0 <= q < r < |at| ==> at[q] < at[r])
    && (forall k: nat :: k < |f.projects| ==> (k in at <==> IsFound(disk, f.projects[k])))
  }

  predicate NegativeIndex(index: Option<int>) {
    index.Some? && index.value < 0
  }

  predicate Within(index: Option<int>, n: nat) {
    index.Some? && 0 <= index.value < n
  }

  /** A negative position is used as an index, and the program stops. */
  ghost predicate Stops(f: PersistedWorkspace, at: seq<nat>)
    requires forall q :: 0 <= q < |at| ==> at[q] < |f.projects|
  {
    || (exists q :: 0 <= q < |at| && StopsAt(f.projects[at[q]]))
    || NegativeIndex(f.activeProjectIndex)
    || (Within(f.activeProjectIndex, |at|) && NegativeIndex(f.activePaneIndex))
  }

  predicate StopsAt(pp: PersistedProject) {
    pp.workstreams.Some? && pp.workstreams.value != [] && NegativeIndex(pp.activeWorkstreamIndex)
  }

  /** The project at the stored position, or the first; and of its panes that at the stored position, or the first. */
  ghost predicate Selects(f: PersistedWorkspace, w: Workspace, a: nat) {
    && a < |w.projects| && a == (if Within(f.activeProjectIndex, |w.projects|) then f.activeProjectIndex.value else 0)
    && w.activeProject == Some(w.projects[a].id)
    && (forall q :: 0 <= q < |w.projects| ==> (w.projects[q].isActive <==> q == a))
    && (if PaneIsStored(f, w, a) then SelectsPane(f, w.projects[a], w.activePane)
        else LandsOn(w.projects[a], w.activePane))
  }

  /** The stored position of the pane counts only beside one of the project. */
  ghost predicate PaneIsStored(f: PersistedWorkspace, w: Workspace, a: nat)
    requires a < |w.projects|
  {
    Within(f.activeProjectIndex, |w.projects|)
    && exists k: nat :: InEffect(w.projects[a], k) && Within(f.activePaneIndex, |w.projects[a].workstreams[k].panes|)
  }

  predicate IsStoredPane(index: Option<int>, panes: seq<Pane>, pane: Option<nat>) {
    Within(index, |panes|) && pane == Some(panes[index.value].id)
  }

  ghost predicate SelectsPane(f: PersistedWorkspace, p: Project, pane: Option<nat>) {
    exists k: nat :: InEffect(p, k) && IsStoredPane(f.activePaneIndex, p.workstreams[k].panes, pane)
  }

  lemma {:induction false} FoundExactly(f: PersistedWorkspace, disk: Disk) returns (at: seq<nat>)
    ensures Finds(f, disk, at) && at == Sources(f.projects, disk)
  {
    at := Sources(f.projects, disk);
    SourcesAscend(f.projects, disk, 0);
    assert forall q :: 0 <= q < |at| ==> at[q] in at;
    forall k: nat | k < |f.projects| ensures k in at <==> IsFound(disk, f.projects[k])
    {
      LocateExactly(disk, f.projects[k]);
      SourceIsFound(f.projects, disk, 0, k);
      if Locate(disk, f.projects[k]).Some? {
        EverySource(f.projects, disk, 0, k);
      }
    }
  }

  lemma {:induction false} SourceIsFound(projects: seq<PersistedProject>, disk: Disk, from: nat, k: nat)
    requires k < |projects|
    ensures k in Sources(projects, disk, from) ==> Locate(disk, projects[k]).Some?
    decreases |projects| - from
  {
    if from < |projects| {
      SourceIsFound(projects, disk, from + 1, k);
    }
  }

  /**
   Any file, on any machine: it stops the program exactly if a negative position is used; otherwise there is no
   workspace exactly if no project is found; otherwise the projects found come in order, each as it was stored, and one
   of them and one of its panes are selected.
   */
  lemma {:induction false} LoadExactly(f: PersistedWorkspace, disk: Disk, ids: Ids) returns (at: seq<nat>)
    ensures Finds(f, disk, at)
    ensures LoadOf(f, disk, ids).Traps? <==> Stops(f, at)
    ensures LoadOf(f, disk, ids).Nothing? <==> !Stops(f, at) && at == []
    ensures LoadOf(f, disk, ids).Loaded? ==>
      var w := LoadOf(f, disk, ids).workspace;
      && |w.projects| == |at|
      && (forall q :: 0 <= q < |at| ==> IsLoaded(disk, f.projects[at[q]], w.projects[q]))
      && exists a :: Selects(f, w, a)
  {
    at := FoundExactly(f, disk);
    RestoredFrom(f.projects, disk, ids, 0);
    TrapsExactly(f, disk, at);
    if LoadOf(f, disk, ids).Loaded? {
      AllLoaded(f, disk, ids, at);
      SelectedExactly(f, disk, ids);
    }
  }

  lemma {:induction false} TrapsExactly(f: PersistedWorkspace, disk: Disk, at: seq<nat>)
    requires Finds(f, disk, at)
    ensures FileTraps(disk, f, |at|) <==> Stops(f, at)
  {
    forall k: nat | k < |f.projects| ensures ProjectTraps(disk, f.projects[k]) <==> k in at && StopsAt(f.projects[k])
    {
      LocateExactly(disk, f.projects[k]);
    }
    if k: nat :| k < |f.projects| && ProjectTraps(disk, f.projects[k]) {
      var q :| 0 <= q < |at| && at[q] == k;
      assert StopsAt(f.projects[at[q]]);
    }
    forall q | 0 <= q < |at| && StopsAt(f.projects[at[q]]) ensures FileTraps(disk, f, |at|)
    {
      assert at[q] in at && ProjectTraps(disk, f.projects[at[q]]);
    }
  }

  lemma {:induction false} AllLoaded(f: PersistedWorkspace, disk: Disk, ids: Ids, at: seq<nat>)
    requires at == Sources(f.projects, disk) && Finds(f, disk, at) && LoadOf(f, disk, ids).Loaded?
    ensures var w := LoadOf(f, disk, ids).workspace;
      |w.projects| == |at| && forall q :: 0 <= q < |at| ==> IsLoaded(disk, f.projects[at[q]], w.projects[q])
  {
    var w, projects := LoadOf(f, disk, ids).workspace, RestoreProjects(f.projects, disk, ids);
    RestoredFrom(f.projects, disk, ids, 0);
    LoadedShape(f, disk, ids);
    forall q | 0 <= q < |at| ensures IsLoaded(disk, f.projects[at[q]], w.projects[q])
    {
      assert at[q] in at;
      ProjectLoaded(disk, f.projects[at[q]], ids, at[q]);
      FlagIsNotStored(disk, f.projects[at[q]], projects[q], w.projects[q]);
    }
  }

  lemma {:induction false} FlagIsNotStored(disk: Disk, pp: PersistedProject, p: Project, r: Project)
    requires IsLoaded(disk, pp, p) && r == p.(isActive := r.isActive)
    ensures IsLoaded(disk, pp, r)
  {
    if pp.workstreams.Some? && pp.workstreams.value != [] {
      var a :| IsChosen(pp.activeWorkstreamIndex, p.workstreams, a) && FlaggedAt(p, a);
      assert FlaggedAt(r, a);
    }
  }

  lemma {:induction false} SelectedExactly(f: PersistedWorkspace, disk: Disk, ids: Ids)
    requires LoadOf(f, disk, ids).Loaded?
    ensures exists a :: Selects(f, LoadOf(f, disk, ids).workspace, a)
  {
    var w, projects := LoadOf(f, disk, ids).workspace, RestoreProjects(f.projects, disk, ids);
    var a := if Within(f.activeProjectIndex, |projects|) then f.activeProjectIndex.value else 0;
    NoneFlagged(f, disk, ids);
    LoadedShape(f, disk, ids);
    assert LoadedIndex(f, |projects|) == a && |w.projects| == |projects|;
    LoadedPane(f, projects, a);
    assert Selects(f, w, a);
  }

  lemma {:induction false} LoadedPane(f: PersistedWorkspace, projects: seq<Project>, a: nat)
    requires a < |projects| && !NegativeIndex(f.activeProjectIndex)
    requires a == if Within(f.activeProjectIndex, |projects|) then f.activeProjectIndex.value else 0
    ensures
      var w := ActivateAt(projects, f.activeProjectIndex, f.activePaneIndex);
      && w.projects == projects[a := projects[a].(isActive := true)]
      && (if PaneIsStored(f, w, a) then SelectsPane(f, w.projects[a], w.activePane)
          else LandsOn(w.projects[a], w.activePane))
  {
    var w := ActivateAt(projects, f.activeProjectIndex, f.activePaneIndex);
    SameFirstPane(projects[a], w.projects[a]);
    FirstPaneLands(w.projects[a]);
    SelectedPane(w.projects[a]);
    assert ActivePanes(w.projects[a]) == ActivePanes(projects[a]);
  }

  lemma {:induction false} NoneFlagged(f: PersistedWorkspace, disk: Disk, ids: Ids)
    ensures var projects := RestoreProjects(f.projects, disk, ids);
      forall q :: 0 <= q < |projects| ==> !projects[q].isActive
  {
    RestoredFrom(f.projects, disk, ids, 0);
  }

  /** The panes of a project are those of its workstream in effect. */
  lemma {:induction false} SelectedPane(p: Project)
    ensures forall k: nat :: InEffect(p, k) ==> ActivePanes(p) == p.workstreams[k].panes
    ensures ActivePanes(p) != [] ==> ActiveIndex(p).Some? && InEffect(p, ActiveIndex(p).value)
  {
    forall k: nat ensures InEffect(p, k) <==> ActiveIndex(p) == Some(k)
    {
      OneInEffect(p, k);
    }
  }

  // ---------------------------------------------------------------------------------------------------
  // The file a workspace is saved to
  // ---------------------------------------------------------------------------------------------------

  /** A stored position is that of the selected element, or there is neither. */
  ghost predicate IsPosition(index: Option<int>, selected: Option<nat>, projects: seq<Project>) {
    match selected
    case Some(id) =>
      if index.Some? then 0 <= index.value && IsProject(projects, id, index.value)
      else forall i :: 0 <= i < |projects| ==> projects[i].id != id
    case None => index == None
  }

  ghost predicate IsWorkstreamPosition(index: Option<int>, selected: Option<nat>, wss: seq<Workstream>) {
    match selected
    case Some(id) =>
      if index.Some? then 0 <= index.value && IsFirstWith(wss, id, index.value)
      else forall i :: 0 <= i < |wss| ==> wss[i].id != id
    case None => index == None
  }

  ghost predicate SavesWorkstream(r: PersistedWorkstream, ws: Workstream) {
    && r.name == ws.name && r.isDefault == ws.isDefault && r.branch == ws.branch && r.worktreePath == ws.worktreePath
    && |r.panes| == |ws.panes| && forall j :: 0 <= j < |ws.panes| ==> r.panes[j] == PersistPane(ws.panes[j])
  }

  /** The second format: every workstream, and the position of the selected one. */
  ghost predicate SavesProject(pp: PersistedProject, p: Project) {
    && pp.name == p.name && pp.bookmark == p.bookmark && pp.path == p.path && pp.panes == None
    && pp.workstreams.Some? && |pp.workstreams.value| == |p.workstreams|
    && (forall i :: 0 <= i < |p.workstreams| ==> SavesWorkstream(pp.workstreams.value[i], p.workstreams[i]))
    && IsWorkstreamPosition(pp.activeWorkstreamIndex, p.active, p.workstreams)
  }

  /** The selected project, or the first when none is selected. */
  ghost predicate IsShown(w: Workspace, a: nat) {
    match w.activeProject
    case Some(id) => IsProject(w.projects, id, a)
    case None => a == 0 < |w.projects|
  }

  predicate IsPane(panes: seq<Pane>, id: nat, j: int) {
    0 <= j < |panes| && panes[j].id == id && forall i :: 0 <= i < j ==> panes[i].id != id
  }

  /** The position of the selected pane among the panes that are shown. */
  ghost predicate IsPanePosition(index: Option<int>, w: Workspace) {
    forall j: int :: index == Some(j) <==>
      w.activePane.Some? && exists a: nat :: IsShown(w, a) && ShowsAt(w.projects[a], w.activePane.value, j)
  }

  ghost predicate ShowsAt(p: Project, id: nat, j: int) {
    exists k: nat :: InEffect(p, k) && IsPane(p.workstreams[k].panes, id, j)
  }

  /** The file is of the second format, and holds every project, in order, and the positions of what is selected. */
  lemma {:induction false} SaveExactly(w: Workspace)
    ensures var f := Save(w);
      && f.version == 2 && |f.projects| == |w.projects|
      && (forall i :: 0 <= i < |w.projects| ==> SavesProject(f.projects[i], w.projects[i]))
      && IsPosition(f.activeProjectIndex, w.activeProject, w.projects)
      && IsPanePosition(f.activePaneIndex, w)
  {
    forall i | 0 <= i < |w.projects| ensures SavesProject(Save(w).projects[i], w.projects[i])
    {
      ProjectSaved(w.projects[i]);
    }
    forall j: int ensures Save(w).activePaneIndex == Some(j) <==>
      w.activePane.Some? && exists a: nat :: IsShown(w, a) && ShowsAt(w.projects[a], w.activePane.value, j)
    {
      if w.activePane.Some? {
        PaneSaved(w, j);
      }
    }
  }

  lemma {:induction false} ProjectSaved(p: Project)
    ensures SavesProject(PersistProject(p), p)
  {
    forall i | 0 <= i < |p.workstreams| ensures SavesWorkstream(PersistWorkstream(p.workstreams[i]), p.workstreams[i])
    {
    }
  }

  lemma {:induction false} PaneSaved(w: Workspace, j: int)
    requires w.activePane.Some?
    ensures EffectivePane(w) == Some(j) <==>
      exists a: nat :: IsShown(w, a) && ShowsAt(w.projects[a], w.activePane.value, j)
  {
    forall a: nat ensures IsShown(w, a) <==> EffectiveProject(w) == Some(a)
    {
      ShownIsEffective(w, a);
    }
    if EffectiveProject(w).Some? {
      var p := w.projects[EffectiveProject(w).value];
      PaneAt(p, w.activePane.value, j);
    }
  }

  lemma {:induction false} ShownIsEffective(w: Workspace, a: nat)
    ensures IsShown(w, a) <==> EffectiveProject(w) == Some(a)
  {
    if w.activeProject.Some? {
      assert ProjectIndex(w.projects, w.activeProject.value) < |w.projects| ==>
        IsProject(w.projects, w.activeProject.value, ProjectIndex(w.projects, w.activeProject.value));
    }
  }

  lemma {:induction false} PaneAt(p: Project, id: nat, j: int)
    ensures ShowsAt(p, id, j) <==> WorkspaceStorage.Within(PaneIndex(ActivePanes(p), id), |ActivePanes(p)|) == Some(j)
  {
    SelectedPane(p);
    PaneIndexIs(ActivePanes(p), id, 0);
    assert IsPane(ActivePanes(p), id, j) ==> ShowsAt(p, id, j);
  }

  lemma {:induction false} PaneIndexIs(panes: seq<Pane>, id: nat, from: nat)
    requires from <= |panes|
    ensures forall i :: from <= i < PaneIndex(panes, id, from) ==> panes[i].id != id
    decreases |panes| - from
  {
    if from < |panes| && panes[from].id != id {
      PaneIndexIs(panes, id, from + 1);
    }
  }
}
