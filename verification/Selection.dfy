/** What is selected. */
module Selection {
  // Which project, workstream and pane are in effect after a choice or a removal.

  import opened Options
  import opened ProjectModel
  import opened WorktreeGit
  import opened Removal
  import opened WorkspaceModel

  // ---------------------------------------------------------------------------------------------------
  // What is in effect
  // ---------------------------------------------------------------------------------------------------

  /** The first default workstream, or the very first without one. */
  ghost predicate IsFallback(wss: seq<Workstream>, k: nat) {
    k < |wss|
    && ((wss[k].isDefault && forall j :: 0 <= j < k ==> !wss[j].isDefault)
        || (k == 0 && forall j :: 0 <= j < |wss| ==> !wss[j].isDefault))
  }

  ghost predicate IsFirstWith(wss: seq<Workstream>, id: nat, k: nat) {
    k < |wss| && wss[k].id == id && forall j :: 0 <= j < k ==> wss[j].id != id
  }

  /** The selected workstream; the fallback when none is selected. */
  ghost predicate InEffect(p: Project, k: nat) {
    match p.active
    case Some(id) => IsFirstWith(p.workstreams, id, k)
    case None => IsFallback(p.workstreams, k)
  }

  /** The pane selected along with a project: the first of its workstream in effect, if there is one. */
  ghost predicate LandsOn(p: Project, pane: Option<nat>) {
    && (pane.Some? ==> exists k: nat :: InEffect(p, k) && Leads(p.workstreams[k], pane.value))
    && (pane.None? ==> forall k: nat :: InEffect(p, k) ==> p.workstreams[k].panes == [])
  }

  predicate Leads(ws: Workstream, pane: nat) {
    ws.panes != [] && ws.panes[0].id == pane
  }

  lemma {:induction false} FirstPaneLands(p: Project)
    ensures LandsOn(p, FirstPane(p))
  {
    forall k: nat ensures InEffect(p, k) <==> ActiveIndex(p) == Some(k)
    {
      OneInEffect(p, k);
    }
    if ActivePanes(p) != [] {
      assert InEffect(p, ActiveIndex(p).value);
    }
  }

  lemma {:induction false} OneInEffect(p: Project, k: nat)
    ensures InEffect(p, k) <==> ActiveIndex(p) == Some(k)
  {
    match p.active
    case Some(id) => FirstIsUnique(p.workstreams, id, k);
    case None =>
      if p.workstreams != [] {
        FallbackIsUnique(p.workstreams, k);
      }
  }

  lemma {:induction false} FirstIsUnique(wss: seq<Workstream>, id: nat, k: nat)
    ensures IsFirstWith(wss, id, k) <==> k < |wss| && IndexOf(wss, id) == k
  {
    assert IndexOf(wss, id) < |wss| ==> wss[IndexOf(wss, id)].id == id;
  }

  lemma {:induction false} FallbackIsUnique(wss: seq<Workstream>, k: nat)
    requires wss != []
    ensures IsFallback(wss, k) <==> DefaultIndex(wss) == k
  {
    assert DefaultIndex(wss) < |wss|;
  }

  /** The first project with the identifier. */
  ghost predicate IsProject(projects: seq<Project>, id: nat, i: nat) {
    i < |projects| && projects[i].id == id && forall j :: 0 <= j < i ==> projects[j].id != id
  }

  // ---------------------------------------------------------------------------------------------------
  // Projects
  // ---------------------------------------------------------------------------------------------------

  /** Switching flags exactly the project asked for and selects it together with its first pane. */
  lemma {:induction false} SwitchSelectsExactly(ws: Workspace, id: nat, i: nat)
    requires IsProject(ws.projects, id, i)
    ensures var t := SwitchedTo(ws, id);
      && t.activeProject == Some(id) && LandsOn(ws.projects[i], t.activePane)
      && |t.projects| == |ws.projects|
      && forall j :: 0 <= j < |ws.projects| ==> t.projects[j] == ws.projects[j].(isActive := j == i)
  {
    assert ProjectIndex(ws.projects, id) == i;
    SameFirstPane(ws.projects[i], Cleared(ws.projects)[i]);
    FirstPaneLands(ws.projects[i]);
  }

  lemma {:induction false} SameFirstPane(p: Project, q: Project)
    requires p.workstreams == q.workstreams && p.active == q.active
    ensures FirstPane(p) == FirstPane(q)
  {
  }

  /** For an unknown identifier the selection stays, and yet no project is flagged any more. */
  lemma {:induction false} SwitchToUnknown(ws: Workspace, id: nat)
    requires forall j :: 0 <= j < |ws.projects| ==> ws.projects[j].id != id
    ensures var t := SwitchedTo(ws, id);
      && t.activeProject == ws.activeProject && t.activePane == ws.activePane
      && |t.projects| == |ws.projects|
      && forall j :: 0 <= j < |ws.projects| ==> t.projects[j] == ws.projects[j].(isActive := false)
  {
  }

  /**
   A project removed without a failure leaves the others in their places. If it was not the selected one, nothing else
   changes; if it was, the first of the others is flagged and selected with its first pane, and without others nothing
   is selected. With a failure the workspace stays as it is.
   */
  lemma {:induction false} RemovalSelectsExactly(w: World, ws: Workspace, id: nat, i: nat,
                                                 options: ProjectRemovalOptions, probe: Probe)
    requires IsProject(ws.projects, id, i)
    ensures
      var r := ProjectRemoval(w, ws, id, options, probe);
      var t, selected := r.workspace, ws.activeProject == Some(id);
      && (r.failures != [] ==> t == ws)
      && (r.failures == [] ==>
            && |t.projects| == |ws.projects| - 1
            && (forall j :: 0 <= j < |t.projects| ==>
                  var p := ws.projects[if j < i then j else j + 1];
                  t.projects[j] == if selected && j == 0 then p.(isActive := true) else p)
            && (!selected ==> t.activeProject == ws.activeProject && t.activePane == ws.activePane)
            && (selected && t.projects == [] ==> t.activeProject == None && t.activePane == None)
            && (selected && t.projects != [] ==>
                  t.activeProject == Some(t.projects[0].id) && LandsOn(t.projects[0], t.activePane)))
  {
    assert ProjectIndex(ws.projects, id) == i;
    DropSelects(ws, i);
  }

  lemma {:induction false} DropSelects(ws: Workspace, i: nat)
    requires i < |ws.projects|
    ensures
      var t, selected := Dropped(ws, i), ws.activeProject == Some(ws.projects[i].id);
      && |t.projects| == |ws.projects| - 1
      && (forall j :: 0 <= j < |t.projects| ==>
            var p := ws.projects[if j < i then j else j + 1];
            t.projects[j] == if selected && j == 0 then p.(isActive := true) else p)
      && (!selected ==> t.activeProject == ws.activeProject && t.activePane == ws.activePane)
      && (selected && t.projects == [] ==> t.activeProject == None && t.activePane == None)
      && (selected && t.projects != [] ==>
            t.activeProject == Some(t.projects[0].id) && LandsOn(t.projects[0], t.activePane))
  {
    var rest := ws.projects[..i] + ws.projects[i + 1..];
    assert forall j :: 0 <= j < |rest| ==> rest[j] == ws.projects[if j < i then j else j + 1];
    if rest != [] {
      SameFirstPane(rest[0], rest[0].(isActive := true));
      FirstPaneLands(rest[0].(isActive := true));
    }
  }

  // ---------------------------------------------------------------------------------------------------
  // Workstreams
  // ---------------------------------------------------------------------------------------------------

  /** A workstream added comes last, is selected and is the only one flagged; the others keep everything else. */
  lemma {:induction false} AddSelectsExactly(p: Project, ws: Workstream)
    ensures var q, n := Added(p, ws), |p.workstreams|;
      && q == p.(workstreams := q.workstreams, active := Some(ws.id)) && |q.workstreams| == n + 1
      && q.workstreams[n] == ws.(isActive := true)
      && forall j :: 0 <= j < n ==> q.workstreams[j] == p.workstreams[j].(isActive := p.workstreams[j].id == ws.id)
  {
  }

  /** Switching selects the identifier, known or not, and flags exactly the workstreams that have it. */
  lemma {:induction false} SwitchWorkstreamExactly(p: Project, id: nat)
    ensures var q := Switched(p, id);
      && q == p.(workstreams := q.workstreams, active := Some(id)) && |q.workstreams| == |p.workstreams|
      && forall j :: 0 <= j < |p.workstreams| ==>
           q.workstreams[j] == p.workstreams[j].(isActive := p.workstreams[j].id == id)
  {
  }

  ghost predicate IsFirstFlagged(wss: seq<Workstream>, k: nat) {
    k < |wss| && wss[k].isActive && forall j :: 0 <= j < k ==> !wss[j].isActive
  }

  /**
   Taking over a list: the first flagged workstream is selected and the list stays as it is; without a flag the fallback
   is flagged and selected; without workstreams there is a default one, flagged and selected.
   */
  lemma {:induction false} AdoptionExactly(id: nat, name: string, path: string, bookmark: Option<string>,
                                           given: seq<Workstream>, defaultID: nat)
    ensures
      var p := Adopted(id, name, path, bookmark, given, defaultID);
      && p.id == id && p.name == name && p.path == path && p.bookmark == bookmark && !p.isActive
      && (forall k: nat :: IsFirstFlagged(given, k) ==> p.workstreams == given && p.active == Some(given[k].id))
      && ((forall i :: 0 <= i < |given| ==> !given[i].isActive) ==>
            forall k: nat :: IsFallback(given, k) ==>
              p.active == Some(given[k].id) && p.workstreams == given[k := given[k].(isActive := true)])
      && (given == [] ==>
            && p.active == Some(defaultID) && |p.workstreams| == 1
            && p.workstreams[0] == Workstream(defaultID, "default", true, None, None, [], true))
  {
    assert FirstFlagged(given) < |given| ==> given[FirstFlagged(given)].isActive;
    forall k: nat | IsFallback(given, k) ensures DefaultIndex(given) == k
    {
      FallbackIsUnique(given, k);
    }
  }

  /** The project refuses the last workstream, an unknown one and a default one, and no other. */
  ghost predicate Refuses(p: Project, id: nat) {
    |p.workstreams| <= 1 || (forall k: nat :: IsFirstWith(p.workstreams, id, k) ==> p.workstreams[k].isDefault)
  }

  /** A refused removal changes nothing. */
  lemma {:induction false} RefusedRemoval(p: Project, id: nat)
    requires Refuses(p, id)
    ensures Removed(p, id) == p && !Removable(p, id)
  {
    var i := IndexOf(p.workstreams, id);
    if i < |p.workstreams| && |p.workstreams| > 1 {
      assert IsFirstWith(p.workstreams, id, i);
    }
  }

  /**
   A workstream removed leaves the others in their places. If it was not the selected one nothing else changes; if it
   was, the first default one of the others, or else their first, is flagged and selected.
   */
  lemma {:induction false} RemovedSelectsExactly(p: Project, id: nat, i: nat, f: nat)
    requires !Refuses(p, id) && IsFirstWith(p.workstreams, id, i)
    requires IsFallback(p.workstreams[..i] + p.workstreams[i + 1..], f)
    ensures
      var q, selected, rest := Removed(p, id), p.active == Some(id), p.workstreams[..i] + p.workstreams[i + 1..];
      && Removable(p, id)
      && q.active == (if selected then Some(rest[f].id) else p.active)
      && q == p.(workstreams := q.workstreams, active := q.active) && |q.workstreams| == |rest|
      && forall j :: 0 <= j < |rest| ==>
           q.workstreams[j] == if selected && j == f then rest[j].(isActive := true) else rest[j]
  {
    FirstIsUnique(p.workstreams, id, i);
    var k: nat :| IsFirstWith(p.workstreams, id, k) && !p.workstreams[k].isDefault;
    FirstIsUnique(p.workstreams, id, k);
    var rest := Without(p.workstreams, i);
    FallbackIsUnique(rest, f);
  }

  /**
   The tiered removal of a workstream: an unknown one is nothing to do; when an artifact step failed the project stays;
   when the project refuses it stays too, and the one failure names the workstream; otherwise the workstream leaves.
   */
  lemma {:induction false} WorkstreamRemovalExactly(w: World, p: Project, id: nat, i: nat,
                                                    options: WorkstreamRemovalOptions, probe: Probe)
    requires IsFirstWith(p.workstreams, id, i)
    ensures
      var r := WorkstreamRemoval(w, p, id, options, probe);
      var steps := RemoveWorkstreamArtifacts(w, p.workstreams[i], p.path, options, probe);
      && r.world == steps.world
      && (steps.failures != [] ==> r.project == p && r.failures == steps.failures)
      && (steps.failures == [] && Refuses(p, id) ==>
            r.project == p && |r.failures| == 1 && r.failures[0].artifact == p.workstreams[i].name
            && r.failures[0].reason == CannotRemoveDefault)
      && (steps.failures == [] && !Refuses(p, id) ==>
            r.failures == [] && |r.project.workstreams| == |p.workstreams| - 1)
  {
    FirstIsUnique(p.workstreams, id, i);
    if Refuses(p, id) {
      RefusedRemoval(p, id);
    } else {
      var k: nat :| IsFirstWith(p.workstreams, id, k) && !p.workstreams[k].isDefault;
      FirstIsUnique(p.workstreams, id, k);
    }
  }

  lemma {:induction false} UnknownWorkstream(w: World, p: Project, id: nat, options: WorkstreamRemovalOptions,
                                             probe: Probe)
    requires forall k :: 0 <= k < |p.workstreams| ==> p.workstreams[k].id != id
    ensures WorkstreamRemoval(w, p, id, options, probe) == WorkstreamResult(w, p, [])
  {
  }
}
