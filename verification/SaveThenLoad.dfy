/** What of a workspace a restart preserves. */
module SaveThenLoad {
  import opened Options
  import opened PaneModel
  import opened ProjectModel
  import opened WorkspaceModel
  import opened WorkspaceStorage
  import opened WorkspaceRoundTrip
  import opened WorkspacePersistence

  // ---------------------------------------------------------------------------------------------------
  // What a user sees
  // ---------------------------------------------------------------------------------------------------

  /** A project without identities: its workstreams, and the position of the one in effect. */
  datatype SeenProject = SeenProject(
    name: string, path: string, bookmark: Option<string>, workstreams: seq<Workstream>, active: Option<nat>)

  /** A workspace without identities: positions of the project and the pane in effect. */
  datatype Seen = Seen(projects: seq<SeenProject>, activeProject: Option<nat>, activePane: Option<nat>)

  function SeePanes(panes: seq<Pane>): (r: seq<Pane>)
    ensures |r| == |panes|
  {
    seq(|panes|, j requires 0 <= j < |panes| => panes[j].(id := 0))
  }

  function SeeWorkstreams(wss: seq<Workstream>): (r: seq<Workstream>)
    ensures |r| == |wss|
  {
    seq(|wss|, i requires 0 <= i < |wss| => wss[i].(id := 0, panes := SeePanes(wss[i].panes), isActive := false))
  }

  function SeeProject(p: Project): SeenProject {
    SeenProject(p.name, p.path, p.bookmark, SeeWorkstreams(p.workstreams), ActiveIndex(p))
  }

  function SeeProjects(projects: seq<Project>): (r: seq<SeenProject>)
    ensures |r| == |projects|
  {
    seq(|projects|, i requires 0 <= i < |projects| => SeeProject(projects[i]))
  }

  function See(w: Workspace): Seen {
    Seen(SeeProjects(w.projects), EffectiveProject(w), EffectivePane(w))
  }

  // ---------------------------------------------------------------------------------------------------
  // One project
  // ---------------------------------------------------------------------------------------------------

  ghost predicate CanonicalProject(p: Project) {
    forall i, j :: 0 <= i < |p.workstreams| && 0 <= j < |p.workstreams[i].panes| ==>
      Canonical(p.workstreams[i].panes[j])
  }

  lemma {:induction false} PanesComeBack(panes: seq<Pane>, ids: Ids, k: nat, i: nat)
    requires forall j :: 0 <= j < |panes| ==> Canonical(panes[j])
    ensures SeePanes(RestorePanes(PersistPanes(panes), ids, k, i)) == SeePanes(panes)
  {
    var r := RestorePanes(PersistPanes(panes), ids, k, i);
    forall j | 0 <= j < |panes| ensures r[j].(id := 0) == panes[j].(id := 0)
    {
      PaneRoundTripExactly(panes[j], ids(PaneSlot(k, i, j)));
    }
  }

  lemma {:induction false} WorkstreamsComeBack(p: Project, ids: Ids, k: nat, a: nat)
    requires CanonicalProject(p) && a < |p.workstreams|
    ensures var r := RestoreWorkstreams(PersistWorkstreams(p.workstreams), ids, k);
      SeeWorkstreams(r[a := r[a].(isActive := true)]) == SeeWorkstreams(p.workstreams)
  {
    var r := RestoreWorkstreams(PersistWorkstreams(p.workstreams), ids, k);
    var s := r[a := r[a].(isActive := true)];
    forall i | 0 <= i < |r| ensures SeeWorkstreams(s)[i] == SeeWorkstreams(p.workstreams)[i]
    {
      PanesComeBack(p.workstreams[i].panes, ids, k, i);
    }
  }

  lemma {:induction false} DefaultFromSame(a: seq<Workstream>, b: seq<Workstream>, from: nat)
    requires |a| == |b| && from <= |a| && forall i :: 0 <= i < |a| ==> a[i].isDefault == b[i].isDefault
    ensures DefaultFrom(a, from) == DefaultFrom(b, from)
    decreases |a| - from
  {
    if from < |a| && !a[from].isDefault {
      DefaultFromSame(a, b, from + 1);
    }
  }

  /** The workstream in effect is the one made active by the next load, selected or default. */
  lemma {:induction false} ActiveComesBack(p: Project, ids: Ids, k: nat)
    requires ActiveInv(p)
    ensures RestoredActive(PersistProject(p), ids, k) == ActiveIndex(p).value
  {
    var r := RestoreWorkstreams(PersistWorkstreams(p.workstreams), ids, k);
    DefaultFromSame(r, p.workstreams, 0);
  }

  lemma {:induction false} ProjectComesBack(p: Project, ids: Ids, k: nat)
    requires Unique(ids) && ActiveInv(p) && CanonicalProject(p)
    ensures SeeProject(RestoreProject(PersistProject(p), Place(p.path, p.bookmark), ids, k)) == SeeProject(p)
  {
    RestoredProjectInv(PersistProject(p), Place(p.path, p.bookmark), ids, k);
    ActiveComesBack(p, ids, k);
    WorkstreamsComeBack(p, ids, k, ActiveIndex(p).value);
  }

  // ---------------------------------------------------------------------------------------------------
  // The workspace
  // ---------------------------------------------------------------------------------------------------

  /** Every project is in order and is found where it is. */
  ghost predicate Keepable(w: Workspace, disk: Disk) {
    && DistinctProjects(w)
    && forall i :: 0 <= i < |w.projects| ==>
         ActiveInv(w.projects[i]) && CanonicalProject(w.projects[i])
         && Locate(disk, PersistProject(w.projects[i])) == Some(Place(w.projects[i].path, w.projects[i].bookmark))
  }

  lemma {:induction false} ProjectsComeBack(w: Workspace, disk: Disk, ids: Ids)
    requires Keepable(w, disk) && Unique(ids)
    ensures var r := RestoreProjects(Save(w).projects, disk, ids);
      |r| == |w.projects| && SeeProjects(r) == SeeProjects(w.projects)
      && forall i :: 0 <= i < |r| ==>
           r[i]
             == RestoreProject(PersistProject(w.projects[i]), Place(w.projects[i].path, w.projects[i].bookmark), ids, i)
  {
    var f := Save(w);
    var r := RestoreProjects(f.projects, disk, ids);
    RestoredInPlace(f.projects, disk, ids);
    forall i | 0 <= i < |r|
      ensures r[i]
        == RestoreProject(PersistProject(w.projects[i]), Place(w.projects[i].path, w.projects[i].bookmark), ids, i)
      ensures SeeProjects(r)[i] == SeeProjects(w.projects)[i]
    {
      assert f.projects[i] == PersistProject(w.projects[i]);
      ProjectComesBack(w.projects[i], ids, i);
    }
  }

  /** If every project is found, each is restored at its own position. */
  lemma {:induction false} RestoredInPlace(projects: seq<PersistedProject>, disk: Disk, ids: Ids)
    requires forall j :: 0 <= j < |projects| ==> Locate(disk, projects[j]).Some?
    ensures var r := RestoreProjects(projects, disk, ids);
      |r| == |projects| && forall i :: 0 <= i < |r| ==>
        r[i] == RestoreProject(projects[i], Locate(disk, projects[i]).value, ids, i)
  {
    AllSources(projects, disk, 0);
    RestoredFrom(projects, disk, ids, 0);
    var r, s := RestoreProjects(projects, disk, ids), Sources(projects, disk);
    forall i | 0 <= i < |r| ensures r[i] == RestoreProject(projects[i], Locate(disk, projects[i]).value, ids, i)
    {
      assert s[i] == i;
    }
  }

  /** The panes of the project in effect, none if there is no such project. */
  function ShownPanes(w: Workspace): seq<Pane> {
    if EffectiveProject(w).Some? then ActivePanes(w.projects[EffectiveProject(w).value]) else []
  }

  /**
   What can be restored: a project in effect, and in it either no panes at all, or an active pane which the file
   can tell from the first one. Without a selected project the file does not.
   */
  predicate SelectionKept(w: Workspace) {
    && EffectiveProject(w).Some?
    && (ShownPanes(w) == [] || (EffectivePane(w).Some? && (w.activeProject.Some? || EffectivePane(w) == Some(0))))
  }

  lemma {:induction false} LoadOfSave(w: Workspace, disk: Disk, ids: Ids)
    requires Keepable(w, disk) && Unique(ids) && w.projects != []
    ensures LoadOf(Save(w), disk, ids)
         == Loaded(ActivateAt(RestoreProjects(Save(w).projects, disk, ids), SelectedProject(w), EffectivePane(w)))
  {
    ProjectsComeBack(w, disk, ids);
    var f := Save(w);
    forall k | 0 <= k < |f.projects| ensures !ProjectTraps(disk, f.projects[k])
    {
      assert f.projects[k] == PersistProject(w.projects[k]);
    }
  }

  /** The panes in effect in a restored project are as many as before. */
  lemma {:induction false} SamePaneCount(p: Project, place: Place, ids: Ids, k: nat) returns (panes: seq<PersistedPane>)
    requires Unique(ids) && ActiveInv(p)
    ensures |panes| == |ActivePanes(p)|
    ensures ActivePanes(RestoreProject(PersistProject(p), place, ids, k))
         == RestorePanes(panes, ids, k, RestoredActive(PersistProject(p), ids, k))
  {
    RestoredActivePanes(PersistProject(p), place, ids, k);
    ActiveComesBack(p, ids, k);
    panes := StoredActivePanes(PersistProject(p), ids, k);
  }

  /** What a load of a saved workspace puts in effect. */
  lemma {:induction false} SelectionOfLoad(w: Workspace, disk: Disk, ids: Ids)
    requires Keepable(w, disk) && Unique(ids) && w.projects != []
    ensures LoadOf(Save(w), disk, ids).Loaded?
    ensures var v := LoadOf(Save(w), disk, ids).workspace;
      var a := OrElse(SelectedProject(w), 0);
      var n := |ActivePanes(w.projects[a])|;
      && SeeProjects(v.projects) == SeeProjects(w.projects) && EffectiveProject(v) == Some(a)
      && EffectivePane(v) == if SelectedProject(w).Some? && EffectivePane(w).Some? then EffectivePane(w)
                              else Within(0, n)
  {
    var a := OrElse(SelectedProject(w), 0);
    var r := RestoreProjects(Save(w).projects, disk, ids);
    LoadOfSave(w, disk, ids);
    ProjectsComeBack(w, disk, ids);
    RestoredProjectIds(Save(w).projects, disk, ids);
    var p := w.projects[a];
    var panes := SamePaneCount(p, Place(p.path, p.bookmark), ids, a);
    SelectedBySave(r, a, panes, ids, a, RestoredActive(PersistProject(p), ids, a), OrElse(EffectivePane(w), 0));
    SeeFlagged(r, a);
    assert SelectedProject(w).Some? ==> EffectiveProject(w) == Some(a);
    assert SelectedProject(w).Some? && EffectivePane(w).Some? ==> EffectivePane(w).value < |ActivePanes(p)|;
  }

  lemma {:induction false} SeeFlagged(projects: seq<Project>, a: nat)
    requires a < |projects|
    ensures SeeProjects(projects[a := projects[a].(isActive := true)]) == SeeProjects(projects)
  {
    var q := projects[a := projects[a].(isActive := true)];
    assert forall i :: 0 <= i < |q| ==> SeeProject(q[i]) == SeeProject(projects[i]);
  }

  /**
   When every project is found again, a restart brings back every project, workstream and pane in order, with the
   active workstream of each project; and the active project and pane too, exactly if they can be told from the file.
   */
  lemma {:induction false} RestartKeepsExactly(w: Workspace, disk: Disk, ids: Ids)
    requires Keepable(w, disk) && Unique(ids) && w.projects != []
    ensures LoadOf(Save(w), disk, ids).Loaded?
    ensures SeeProjects(LoadOf(Save(w), disk, ids).workspace.projects) == SeeProjects(w.projects)
    ensures See(LoadOf(Save(w), disk, ids).workspace) == See(w) <==> SelectionKept(w)
  {
    SelectionOfLoad(w, disk, ids);
    var a := OrElse(SelectedProject(w), 0);
    var n := |ActivePanes(w.projects[a])|;
    if EffectiveProject(w).Some? {
      assert EffectiveProject(w) == Some(a) && n == |ShownPanes(w)|;
    }
  }
}
