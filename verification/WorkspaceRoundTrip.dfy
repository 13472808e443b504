/**
 What a save and a load keep, and what they make of any file.

 What is written after a load is compared with a normal form of the file, record by record, for both formats.
 */
module WorkspaceRoundTrip {
  import opened Options
  import opened PaneModel
  import opened ProjectModel
  import opened WorkspaceModel
  import opened WorkspaceStorage

  // ---------------------------------------------------------------------------------------------------
  // Restored objects
  // ---------------------------------------------------------------------------------------------------

  lemma {:induction false} RestoredWorkstreamIds(wss: seq<PersistedWorkstream>, ids: Ids, k: nat)
    requires Unique(ids)
    ensures DistinctIds(RestoreWorkstreams(wss, ids, k))
  {
    var r := RestoreWorkstreams(wss, ids, k);
    forall i, j | 0 <= i < j < |r| ensures r[i].id != r[j].id
    {
      assert r[i].id == ids(WorkstreamSlot(k, i)) && r[j].id == ids(WorkstreamSlot(k, j));
    }
  }

  lemma {:induction false} RestoredPaneIndex(panes: seq<PersistedPane>, ids: Ids, k: nat, i: nat, j: nat, from: nat)
    requires Unique(ids) && from <= j < |panes|
    ensures var r := RestorePanes(panes, ids, k, i); PaneIndex(r, r[j].id, from) == j
    decreases j - from
  {
    var r := RestorePanes(panes, ids, k, i);
    assert r[j].id == ids(PaneSlot(k, i, j)) && r[from].id == ids(PaneSlot(k, i, from));
    if from < j {
      RestoredPaneIndex(panes, ids, k, i, j, from + 1);
    }
  }

  /** The workstream list of a restored project, and which of them is active. */
  function RestoredActive(pp: PersistedProject, ids: Ids, k: nat): nat {
    if HasWorkstreams(pp) then
      var wss := RestoreWorkstreams(pp.workstreams.value, ids, k);
      OrElse(Usable(pp.activeWorkstreamIndex, |wss|), DefaultIndex(wss))
    else 0
  }

  /** Every project that is loaded, of either format, has exactly one active workstream. */
  lemma {:induction false} RestoredProjectInv(pp: PersistedProject, place: Place, ids: Ids, k: nat)
    requires Unique(ids)
    ensures var p := RestoreProject(pp, place, ids, k);
      ActiveInv(p) && ActiveIndex(p) == Some(RestoredActive(pp, ids, k)) && p.id == ids(ProjectSlot(k))
  {
    var p := RestoreProject(pp, place, ids, k);
    if HasWorkstreams(pp) {
      RestoredWorkstreamIds(pp.workstreams.value, ids, k);
      IndexOfIs(p.workstreams, RestoredActive(pp, ids, k));
    }
  }

  // ---------------------------------------------------------------------------------------------------
  // The normal form of a file
  // ---------------------------------------------------------------------------------------------------

  function NormPanes(panes: seq<PersistedPane>): (r: seq<PersistedPane>)
    ensures |r| == |panes|
  {
    seq(|panes|, j requires 0 <= j < |panes| => PersistPane(RestorePane(panes[j], 0)))
  }

  function NormWorkstream(ws: PersistedWorkstream): PersistedWorkstream {
    ws.(panes := NormPanes(ws.panes))
  }

  function NormWorkstreams(wss: seq<PersistedWorkstream>): (r: seq<PersistedWorkstream>)
    ensures |r| == |wss|
  {
    seq(|wss|, i requires 0 <= i < |wss| => NormWorkstream(wss[i]))
  }

  /** The first default workstream of a stored list, or the first of all. */
  function StoredDefault(wss: seq<PersistedWorkstream>, from: nat := 0): (i: nat)
    requires from <= |wss| && wss != []
    ensures i < |wss|
    decreases |wss| - from
  {
    if from == |wss| then 0 else if wss[from].isDefault then from else StoredDefault(wss, from + 1)
  }

  function NormProject(pp: PersistedProject, place: Place): PersistedProject {
    if HasWorkstreams(pp) then
      var wss := pp.workstreams.value;
      PersistedProject(pp.name, place.bookmark, place.path, None, Some(NormWorkstreams(wss)),
                       Some(OrElse(Usable(pp.activeWorkstreamIndex, |wss|), StoredDefault(wss))))
    else
      PersistedProject(pp.name, place.bookmark, place.path, None,
                       Some([PersistedWorkstream("default", true, None, None, NormPanes(OldPanes(pp)))]), None)
  }

  function NormProjects(projects: seq<PersistedProject>, disk: Disk, k: nat := 0): seq<PersistedProject>
    decreases |projects| - k
  {
    if |projects| <= k then []
    else
      var rest := NormProjects(projects, disk, k + 1);
      match Locate(disk, projects[k])
      case None => rest
      case Some(place) => [NormProject(projects[k], place)] + rest
  }

  /** The panes of the active workstream of a project in normal form. */
  function NormPaneCount(pp: PersistedProject): nat {
    if HasWorkstreams(pp) then
      var wss := pp.workstreams.value;
      |wss[OrElse(Usable(pp.activeWorkstreamIndex, |wss|), StoredDefault(wss))].panes|
    else 0
  }

  function NormPaneIndex(count: nat, index: Option<int>): Option<nat> {
    if Usable(index, count).Some? then Usable(index, count) else Within(0, count)
  }

  /** The file a load and a save leave behind, described without the objects in between. */
  function NormFile(f: PersistedWorkspace, disk: Disk): PersistedWorkspace {
    var projects := NormProjects(f.projects, disk);
    if projects == [] then PersistedWorkspace(2, None, None, [])
    else match Usable(f.activeProjectIndex, |projects|)
      case None => PersistedWorkspace(2, Some(0), Within(0, NormPaneCount(projects[0])), projects)
      case Some(a) => PersistedWorkspace(2, Some(a), NormPaneIndex(NormPaneCount(projects[a]), f.activePaneIndex),
        projects)
  }

  lemma {:induction false} DefaultFromIs(wss: seq<PersistedWorkstream>, ids: Ids, k: nat, from: nat)
    requires from <= |wss| && wss != []
    ensures var i := DefaultFrom(RestoreWorkstreams(wss, ids, k), from);
      StoredDefault(wss, from) == if i < |wss| then i else 0
    decreases |wss| - from
  {
    if from < |wss| && !wss[from].isDefault {
      DefaultFromIs(wss, ids, k, from + 1);
    }
  }

  lemma {:induction false} PersistRestoredPanes(panes: seq<PersistedPane>, ids: Ids, k: nat, i: nat)
    ensures PersistPanes(RestorePanes(panes, ids, k, i)) == NormPanes(panes)
  {
    var r := RestorePanes(panes, ids, k, i);
    forall j | 0 <= j < |panes| ensures PersistPanes(r)[j] == NormPanes(panes)[j]
    {
      assert r[j] == RestorePane(panes[j], ids(PaneSlot(k, i, j)));
    }
  }

  lemma {:induction false} PersistRestoredWorkstreams(wss: seq<PersistedWorkstream>, ids: Ids, k: nat, a: nat)
    requires a < |wss|
    ensures var r := RestoreWorkstreams(wss, ids, k);
      PersistWorkstreams(r[a := r[a].(isActive := true)]) == NormWorkstreams(wss)
  {
    var r := RestoreWorkstreams(wss, ids, k);
    var s := r[a := r[a].(isActive := true)];
    forall i | 0 <= i < |wss| ensures PersistWorkstreams(s)[i] == NormWorkstreams(wss)[i]
    {
      PersistRestoredPanes(wss[i].panes, ids, k, i);
      assert s[i].panes == RestorePanes(wss[i].panes, ids, k, i);
    }
  }

  lemma {:induction false} PersistRestoredProject(pp: PersistedProject, place: Place, ids: Ids, k: nat)
    requires Unique(ids)
    ensures PersistProject(RestoreProject(pp, place, ids, k)) == NormProject(pp, place)
    ensures |ActivePanes(RestoreProject(pp, place, ids, k))| == NormPaneCount(NormProject(pp, place))
  {
    var p := RestoreProject(pp, place, ids, k);
    RestoredProjectInv(pp, place, ids, k);
    if HasWorkstreams(pp) {
      var wss := pp.workstreams.value;
      var a := RestoredActive(pp, ids, k);
      DefaultFromIs(wss, ids, k, 0);
      PersistRestoredWorkstreams(wss, ids, k, a);
      assert p.workstreams[a].panes == RestorePanes(wss[a].panes, ids, k, a);
    } else {
      PersistRestoredPanes(OldPanes(pp), ids, k, 0);
      assert PersistWorkstreams(p.workstreams) == [PersistWorkstream(p.workstreams[0])];
    }
  }

  lemma {:induction false} PersistRestoredProjects(projects: seq<PersistedProject>, disk: Disk, ids: Ids, k: nat)
    requires Unique(ids)
    ensures PersistProjects(RestoreProjects(projects, disk, ids, k)) == NormProjects(projects, disk, k)
    decreases |projects| - k
  {
    if k < |projects| {
      PersistRestoredProjects(projects, disk, ids, k + 1);
      match Locate(disk, projects[k])
      case None =>
      case Some(place) =>
        PersistRestoredProject(projects[k], place, ids, k);
        PersistCons(RestoreProject(projects[k], place, ids, k), RestoreProjects(projects, disk, ids, k + 1));
    }
  }

  lemma {:induction false} PersistCons(p: Project, rest: seq<Project>)
    ensures PersistProjects([p] + rest) == [PersistProject(p)] + PersistProjects(rest)
  {
  }

  // ---------------------------------------------------------------------------------------------------
  // Where restored projects come from
  // ---------------------------------------------------------------------------------------------------

  /** The file positions of the projects that are found, from `k` on. */
  function Sources(projects: seq<PersistedProject>, disk: Disk, k: nat := 0): seq<nat>
    decreases |projects| - k
  {
    if |projects| <= k then []
    else if Locate(disk, projects[k]) == None then Sources(projects, disk, k + 1)
    else [k] + Sources(projects, disk, k + 1)
  }

  lemma {:induction false} SourcesAscend(projects: seq<PersistedProject>, disk: Disk, k: nat)
    ensures forall x <- Sources(projects, disk, k) :: k <= x < |projects|
    ensures Ascending(Sources(projects, disk, k))
    decreases |projects| - k
  {
    if k < |projects| {
      SourcesAscend(projects, disk, k + 1);
      var s, rest := Sources(projects, disk, k), Sources(projects, disk, k + 1);
      if s != rest {
        AscendingCons(k, rest);
      }
    }
  }

  ghost predicate Ascending(s: seq<nat>) {
    forall q, r :: 0 <= q < r < |s| ==> s[q] < s[r]
  }

  lemma {:induction false} AscendingCons(k: nat, rest: seq<nat>)
    requires Ascending(rest) && forall x <- rest :: k < x
    ensures Ascending([k] + rest)
  {
    var s := [k] + rest;
    forall q, r | 0 <= q < r < |s| ensures s[q] < s[r]
    {
      assert s[r] in rest;
    }
  }

  lemma {:induction false} RestoredFrom(projects: seq<PersistedProject>, disk: Disk, ids: Ids, k: nat)
    ensures var s, r := Sources(projects, disk, k), RestoreProjects(projects, disk, ids, k);
      |r| == |s| && forall q :: 0 <= q < |s| ==>
        s[q] < |projects| && Locate(disk, projects[s[q]]).Some?
        && r[q] == RestoreProject(projects[s[q]], Locate(disk, projects[s[q]]).value, ids, s[q])
    decreases |projects| - k
  {
    if k < |projects| {
      RestoredFrom(projects, disk, ids, k + 1);
      var s, r := Sources(projects, disk, k + 1), RestoreProjects(projects, disk, ids, k + 1);
      if Locate(disk, projects[k]).Some? {
        var first := RestoreProject(projects[k], Locate(disk, projects[k]).value, ids, k);
        assert Sources(projects, disk, k) == [k] + s && RestoreProjects(projects, disk, ids, k) == [first] + r;
      }
    }
  }

  ghost predicate DistinctProjectIds(projects: seq<Project>) {
    forall i, j :: 0 <= i < j < |projects| ==> projects[i].id != projects[j].id
  }

  lemma {:induction false} RestoredProjectIds(projects: seq<PersistedProject>, disk: Disk, ids: Ids)
    requires Unique(ids)
    ensures DistinctProjectIds(RestoreProjects(projects, disk, ids))
  {
    var s, r := Sources(projects, disk), RestoreProjects(projects, disk, ids);
    RestoredFrom(projects, disk, ids, 0);
    SourcesAscend(projects, disk, 0);
    forall i, j | 0 <= i < j < |r| ensures r[i].id != r[j].id
    {
      assert r[i].id == ids(ProjectSlot(s[i])) && r[j].id == ids(ProjectSlot(s[j]));
    }
  }

  // ---------------------------------------------------------------------------------------------------
  // Save after load
  // ---------------------------------------------------------------------------------------------------

  /** The project and pane a load selects are those a save then finds. */
  lemma {:induction false} SelectedBySave(projects: seq<Project>, a: nat, panes: seq<PersistedPane>, ids: Ids, k: nat,
                                          i: nat, j: nat)
    requires Unique(ids) && DistinctProjectIds(projects) && a < |projects|
    requires ActivePanes(projects[a]) == RestorePanes(panes, ids, k, i)
    ensures SelectedProject(Activated(projects, a)) == Some(a)
    ensures EffectivePane(Activated(projects, a)) == Within(0, |panes|)
    ensures j < |panes| ==>
      EffectivePane(Activated(projects, a).(activePane := Some(ActivePanes(projects[a])[j].id))) == Some(j)
  {
    var w := Activated(projects, a);
    assert forall m :: 0 <= m < |projects| ==> w.projects[m].id == projects[m].id;
    assert ActivePanes(w.projects[a]) == ActivePanes(projects[a]);
    if panes != [] {
      RestoredPaneIndex(panes, ids, k, i, 0, 0);
    }
    if j < |panes| {
      RestoredPaneIndex(panes, ids, k, i, j, 0);
    }
  }

  /** The stored panes that the active panes of a restored project come from. */
  function StoredActivePanes(pp: PersistedProject, ids: Ids, k: nat): seq<PersistedPane> {
    if HasWorkstreams(pp) then pp.workstreams.value[RestoredActive(pp, ids, k)].panes else OldPanes(pp)
  }

  lemma {:induction false} RestoredActivePanes(pp: PersistedProject, place: Place, ids: Ids, k: nat)
    requires Unique(ids)
    ensures ActivePanes(RestoreProject(pp, place, ids, k))
         == RestorePanes(StoredActivePanes(pp, ids, k), ids, k, RestoredActive(pp, ids, k))
  {
    RestoredProjectInv(pp, place, ids, k);
  }

  lemma {:induction false} SaveActivated(f: PersistedWorkspace, disk: Disk, ids: Ids, a: nat, j: nat)
    requires Unique(ids)
    requires var projects := RestoreProjects(f.projects, disk, ids); a < |projects|
    ensures var projects := RestoreProjects(f.projects, disk, ids);
      var norm := NormProjects(f.projects, disk);
      var w := Activated(projects, a);
      && |norm| == |projects| && |ActivePanes(projects[a])| == NormPaneCount(norm[a])
      && Save(w) == PersistedWorkspace(2, Some(a), Within(0, NormPaneCount(norm[a])), norm)
      && (j < |ActivePanes(projects[a])| ==>
          Save(w.(activePane := Some(ActivePanes(projects[a])[j].id))) == PersistedWorkspace(2, Some(a), Some(j), norm))
  {
    var projects := RestoreProjects(f.projects, disk, ids);
    var s := Sources(f.projects, disk);
    RestoredFrom(f.projects, disk, ids, 0);
    RestoredProjectIds(f.projects, disk, ids);
    PersistRestoredProjects(f.projects, disk, ids, 0);
    var pp := f.projects[s[a]];
    var place := Locate(disk, pp).value;
    PersistRestoredProject(pp, place, ids, s[a]);
    RestoredActivePanes(pp, place, ids, s[a]);
    SelectedBySave(projects, a, StoredActivePanes(pp, ids, s[a]), ids, s[a], RestoredActive(pp, ids, s[a]), j);
    assert PersistProjects(projects)[a] == PersistProject(projects[a]);
  }

  /** Saving what was loaded writes the normal form of the file, whatever identifiers were drawn. */
  lemma {:induction false} SaveOfLoad(f: PersistedWorkspace, disk: Disk, ids: Ids)
    requires Unique(ids) && LoadOf(f, disk, ids).Loaded?
    ensures Save(LoadOf(f, disk, ids).workspace) == NormFile(f, disk)
  {
    var projects := RestoreProjects(f.projects, disk, ids);
    PersistRestoredProjects(f.projects, disk, ids, 0);
    match Usable(f.activeProjectIndex, |projects|)
    case None => SaveActivated(f, disk, ids, 0, 0);
    case Some(a) =>
      SaveActivated(f, disk, ids, a, OrElse(Usable(f.activePaneIndex, |ActivePanes(projects[a])|), 0));
  }
}
