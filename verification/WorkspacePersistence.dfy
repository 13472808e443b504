/** The main properties of saving and loading, over whole rounds of both. */
module WorkspacePersistence {
  import opened Options
  import opened PaneModel
  import opened ProjectModel
  import opened WorkspaceModel
  import opened WorkspaceStorage
  import opened WorkspaceRoundTrip

  // ---------------------------------------------------------------------------------------------------
  // Loaded workspaces
  // ---------------------------------------------------------------------------------------------------

  /** Whatever the file, a loaded workspace has one active project, and each project one active workstream. */
  lemma {:induction false} LoadedIsWellFormed(f: PersistedWorkspace, disk: Disk, ids: Ids)
    requires Unique(ids) && LoadOf(f, disk, ids).Loaded?
    ensures var w := LoadOf(f, disk, ids).workspace;
      w.projects != [] && ActiveProjectInv(w) && forall p <- w.projects :: ActiveInv(p)
  {
    var projects := RestoreProjects(f.projects, disk, ids);
    RestoredProjectIds(f.projects, disk, ids);
    RestoredAreActive(f, disk, ids);
    LoadedShape(f, disk, ids);
    FlaggedInv(projects, LoadedIndex(f, |projects|), LoadOf(f, disk, ids).workspace);
  }

  lemma {:induction false} LoadedShape(f: PersistedWorkspace, disk: Disk, ids: Ids)
    requires LoadOf(f, disk, ids).Loaded?
    ensures var projects, w := RestoreProjects(f.projects, disk, ids), LoadOf(f, disk, ids).workspace;
      var a := LoadedIndex(f, |projects|);
      && a < |projects| && w.projects == projects[a := projects[a].(isActive := true)]
      && w.activeProject == Some(projects[a].id)
  {
  }

  lemma {:induction false} RestoredAreActive(f: PersistedWorkspace, disk: Disk, ids: Ids)
    requires Unique(ids)
    ensures var projects := RestoreProjects(f.projects, disk, ids);
      forall q :: 0 <= q < |projects| ==> ActiveInv(projects[q]) && !projects[q].isActive
  {
    var projects, s := RestoreProjects(f.projects, disk, ids), Sources(f.projects, disk);
    RestoredFrom(f.projects, disk, ids, 0);
    forall q | 0 <= q < |projects| ensures ActiveInv(projects[q]) && !projects[q].isActive
    {
      assert s[q] < |f.projects|;
      RestoredProjectInv(f.projects[s[q]], Locate(disk, f.projects[s[q]]).value, ids, s[q]);
    }
  }

  lemma {:induction false} FlaggedInv(projects: seq<Project>, a: nat, w: Workspace)
    requires a < |projects| && DistinctProjectIds(projects)
    requires forall q :: 0 <= q < |projects| ==> ActiveInv(projects[q]) && !projects[q].isActive
    requires w.projects == projects[a := projects[a].(isActive := true)] && w.activeProject == Some(projects[a].id)
    ensures ActiveProjectInv(w) && forall p <- w.projects :: ActiveInv(p)
  {
    assert forall q :: 0 <= q < |projects| ==> w.projects[q].id == projects[q].id;
    assert w.projects[a].id == projects[a].id;
    forall p | p in w.projects ensures ActiveInv(p)
    {
      var q :| 0 <= q < |projects| && w.projects[q] == p;
      assert ActiveInv(projects[q]) && p == projects[q].(isActive := p.isActive);
      assert ActiveIndex(p) == ActiveIndex(projects[q]);
    }
  }

  // ---------------------------------------------------------------------------------------------------
  // Normal forms
  // ---------------------------------------------------------------------------------------------------

  /** A bookmark made anew leads to the same place again. */
  ghost predicate Stable(disk: Disk) {
    forall b <- disk.bookmarks ::
      var place := disk.bookmarks[b];
      place.bookmark.Some? && place.bookmark.value in disk.bookmarks && disk.bookmarks[place.bookmark.value] == place
  }

  lemma {:induction false} LocatedAgain(pp: PersistedProject, disk: Disk)
    requires Stable(disk) && Locate(disk, pp).Some?
    ensures Locate(disk, NormProject(pp, Locate(disk, pp).value)) == Locate(disk, pp)
  {
  }

  lemma {:induction false} NormPanesAgain(panes: seq<PersistedPane>)
    ensures NormPanes(NormPanes(panes)) == NormPanes(panes)
  {
    forall j | 0 <= j < |panes| ensures NormPanes(NormPanes(panes))[j] == NormPanes(panes)[j]
    {
      PaneNormalises(panes[j], 0, 0);
    }
  }

  lemma {:induction false} NormWorkstreamsAgain(wss: seq<PersistedWorkstream>)
    ensures NormWorkstreams(NormWorkstreams(wss)) == NormWorkstreams(wss)
  {
    forall i | 0 <= i < |wss| ensures NormWorkstreams(NormWorkstreams(wss))[i] == NormWorkstreams(wss)[i]
    {
      NormPanesAgain(wss[i].panes);
    }
  }

  /** A project is in normal form at once unless it had no workstreams: its selection is then written only next time. */
  lemma {:induction false} NormProjectAgain(pp: PersistedProject, place: Place)
    ensures var n := NormProject(pp, place);
      && NormProject(n, place) == n.(activeWorkstreamIndex := Some(OrElse(n.activeWorkstreamIndex, 0)))
      && (n.activeWorkstreamIndex.Some? <==> HasWorkstreams(pp))
      && HasWorkstreams(n)
      && (n.activeWorkstreamIndex.Some? ==> 0 <= n.activeWorkstreamIndex.value < |n.workstreams.value|)
      && NormPaneCount(NormProject(n, place)) == NormPaneCount(n)
  {
    var n := NormProject(pp, place);
    NormWorkstreamsAgain(n.workstreams.value);
    if HasWorkstreams(pp) {
      NormWorkstreamsAgain(pp.workstreams.value);
    } else {
      NormPanesAgain(OldPanes(pp));
      assert NormWorkstreams(n.workstreams.value) == n.workstreams.value;
    }
  }

  lemma {:induction false} NormedFrom(projects: seq<PersistedProject>, disk: Disk, k: nat)
    ensures var s, n := Sources(projects, disk, k), NormProjects(projects, disk, k);
      |n| == |s| && forall q :: 0 <= q < |s| ==>
        s[q] < |projects| && Locate(disk, projects[s[q]]).Some?
        && n[q] == NormProject(projects[s[q]], Locate(disk, projects[s[q]]).value)
    decreases |projects| - k
  {
    if k < |projects| {
      NormedFrom(projects, disk, k + 1);
      var s, n := Sources(projects, disk, k + 1), NormProjects(projects, disk, k + 1);
      if Locate(disk, projects[k]).Some? {
        var first := NormProject(projects[k], Locate(disk, projects[k]).value);
        assert Sources(projects, disk, k) == [k] + s && NormProjects(projects, disk, k) == [first] + n;
      }
    }
  }

  /** If every project is found, every position is a source. */
  lemma {:induction false} AllSources(projects: seq<PersistedProject>, disk: Disk, k: nat)
    requires k <= |projects| && forall j :: k <= j < |projects| ==> Locate(disk, projects[j]).Some?
    ensures var s := Sources(projects, disk, k); |s| == |projects| - k && forall q :: 0 <= q < |s| ==> s[q] == k + q
    decreases |projects| - k
  {
    if k < |projects| {
      AllSources(projects, disk, k + 1);
      var s := Sources(projects, disk, k + 1);
      assert Sources(projects, disk, k) == [k] + s;
      assert forall q :: 1 <= q < |s| + 1 ==> ([k] + s)[q] == s[q - 1];
    }
  }

  /** The projects of a normal form, once more. */
  lemma {:induction false} NormProjectsAgain(projects: seq<PersistedProject>, disk: Disk)
    requires Stable(disk)
    ensures var s, n := Sources(projects, disk), NormProjects(projects, disk);
      var m := NormProjects(n, disk);
      && |s| == |n| == |m|
      && (forall q :: 0 <= q < |n| ==>
            s[q] < |projects| && Locate(disk, n[q]).Some? && HasWorkstreams(n[q])
              && !Negative(n[q].activeWorkstreamIndex)
            && (n[q].activeWorkstreamIndex.Some? <==> HasWorkstreams(projects[s[q]]))
            && m[q] == n[q].(activeWorkstreamIndex := Some(OrElse(n[q].activeWorkstreamIndex, 0)))
            && NormPaneCount(m[q]) == NormPaneCount(n[q]))
  {
    var s, n := Sources(projects, disk), NormProjects(projects, disk);
    NormedFrom(projects, disk, 0);
    forall q | 0 <= q < |n| ensures Locate(disk, n[q]) == Locate(disk, projects[s[q]])
    {
      LocatedAgain(projects[s[q]], disk);
    }
    AllSources(n, disk, 0);
    NormedFrom(n, disk, 0);
    forall q | 0 <= q < |n|
      ensures Locate(disk, n[q]).Some? && HasWorkstreams(n[q]) && !Negative(n[q].activeWorkstreamIndex)
      ensures n[q].activeWorkstreamIndex.Some? <==> HasWorkstreams(projects[s[q]])
      ensures NormProjects(n, disk)[q] == n[q].(activeWorkstreamIndex := Some(OrElse(n[q].activeWorkstreamIndex, 0)))
      ensures NormPaneCount(NormProjects(n, disk)[q]) == NormPaneCount(n[q])
    {
      NormProjectAgain(projects[s[q]], Locate(disk, projects[s[q]]).value);
    }
  }

  /** Every project that is found in the file has workstreams of its own. */
  ghost predicate AllHaveWorkstreams(f: PersistedWorkspace, disk: Disk) {
    forall k :: 0 <= k < |f.projects| && Locate(disk, f.projects[k]).Some? ==> HasWorkstreams(f.projects[k])
  }

  lemma {:induction false} EverySource(projects: seq<PersistedProject>, disk: Disk, k: nat, j: nat)
    requires k <= j < |projects| && Locate(disk, projects[j]).Some?
    ensures j in Sources(projects, disk, k)
    decreases |projects| - k
  {
    if k < j {
      EverySource(projects, disk, k + 1, j);
    }
  }

  lemma {:induction false} NormFileAgain(f: PersistedWorkspace, disk: Disk)
    requires Stable(disk) && NormProjects(f.projects, disk) != []
    ensures var g := NormFile(f, disk);
      && NormFile(g, disk).(projects := g.projects) == g
      && (NormFile(g, disk).projects == g.projects <==> AllHaveWorkstreams(f, disk))
  {
    NormProjectsAgain(f.projects, disk);
    NormProjectsSame(f, disk);
  }

  lemma {:induction false} NormProjectsSame(f: PersistedWorkspace, disk: Disk)
    requires Stable(disk)
    ensures var n := NormProjects(f.projects, disk); NormProjects(n, disk) == n <==> AllHaveWorkstreams(f, disk)
  {
    var n, s := NormProjects(f.projects, disk), Sources(f.projects, disk);
    NormProjectsAgain(f.projects, disk);
    var m := NormProjects(n, disk);
    if AllHaveWorkstreams(f, disk) {
      NormedFrom(f.projects, disk, 0);
      assert forall q :: 0 <= q < |s| ==> m[q] == n[q];
    } else {
      var k :| 0 <= k < |f.projects| && Locate(disk, f.projects[k]).Some? && !HasWorkstreams(f.projects[k]);
      EverySource(f.projects, disk, 0, k);
      var q :| 0 <= q < |s| && s[q] == k;
      assert m[q] != n[q];
    }
  }

  /** A normal form loads without a trap. */
  lemma {:induction false} NormFileLoads(f: PersistedWorkspace, disk: Disk, ids: Ids)
    requires Stable(disk) && Unique(ids) && NormProjects(f.projects, disk) != []
    ensures LoadOf(NormFile(f, disk), disk, ids).Loaded?
  {
    var g := NormFile(f, disk);
    NormProjectsAgain(f.projects, disk);
    PersistRestoredProjects(g.projects, disk, ids, 0);
    assert |RestoreProjects(g.projects, disk, ids)| == |NormProjects(g.projects, disk)|;
  }

  /**
   Loading and saving writes a file that loading and saving leaves as it is, if and only if every project found in
   the original had workstreams: the default workstream made for the others is not selected until the next load.
   */
  lemma {:induction false} NormalisesAtOnceExactly(f: PersistedWorkspace, disk: Disk, first: Ids, second: Ids)
    requires Stable(disk) && Unique(first) && Unique(second) && LoadOf(f, disk, first).Loaded?
    ensures var g := Save(LoadOf(f, disk, first).workspace);
      LoadOf(g, disk, second).Loaded? && (Save(LoadOf(g, disk, second).workspace) == g <==> AllHaveWorkstreams(f, disk))
  {
    PersistRestoredProjects(f.projects, disk, first, 0);
    SaveOfLoad(f, disk, first);
    NormFileLoads(f, disk, second);
    SaveOfLoad(NormFile(f, disk), disk, second);
    NormFileAgain(f, disk);
  }

  /** Two rounds suffice for every file. */
  lemma {:induction false} StableAfterTwoRounds(f: PersistedWorkspace, disk: Disk, first: Ids, second: Ids, third: Ids)
    requires Stable(disk) && Unique(first) && Unique(second) && Unique(third) && LoadOf(f, disk, first).Loaded?
    ensures var g := Save(LoadOf(f, disk, first).workspace);
      LoadOf(g, disk, second).Loaded? &&
      var h := Save(LoadOf(g, disk, second).workspace);
      LoadOf(h, disk, third).Loaded? && Save(LoadOf(h, disk, third).workspace) == h
  {
    NormalisesAtOnceExactly(f, disk, first, second);
    var g := Save(LoadOf(f, disk, first).workspace);
    PersistRestoredProjects(f.projects, disk, first, 0);
    SaveOfLoad(f, disk, first);
    NormProjectsAgain(f.projects, disk);
    NormalisesAtOnceExactly(g, disk, second, third);
  }

  // ---------------------------------------------------------------------------------------------------
  // Skipped projects
  // ---------------------------------------------------------------------------------------------------

  predicate AllFound(projects: seq<PersistedProject>, disk: Disk, k: nat, i: nat) {
    forall j :: k <= j < i && j < |projects| ==> Locate(disk, projects[j]).Some?
  }

  predicate NoneFound(projects: seq<PersistedProject>, disk: Disk, k: nat, i: nat) {
    forall j :: k <= j < i && j < |projects| ==> Locate(disk, projects[j]).None?
  }

  lemma {:induction false} AtOwnPlace(projects: seq<PersistedProject>, disk: Disk, k: nat, i: nat)
    requires k <= i < |projects| && Locate(disk, projects[i]).Some?
    ensures var s := Sources(projects, disk, k); i - k < |s| && s[i - k] == i <==> AllFound(projects, disk, k, i)
    decreases |projects| - k
  {
    if k < i {
      AtOwnPlace(projects, disk, k + 1, i);
      var rest := Sources(projects, disk, k + 1);
      if Locate(disk, projects[k]).Some? {
        assert Sources(projects, disk, k) == [k] + rest;
        assert AllFound(projects, disk, k, i) <==> AllFound(projects, disk, k + 1, i);
      } else if i - k < |rest| {
        SourcesAscend(projects, disk, k + 1);
        AscendFrom(rest, k + 1, i - k);
      }
    }
  }

  lemma {:induction false} AtFront(projects: seq<PersistedProject>, disk: Disk, k: nat, i: nat)
    requires k <= i < |projects| && Locate(disk, projects[i]).Some?
    ensures var s := Sources(projects, disk, k); s != [] && (s[0] == i <==> NoneFound(projects, disk, k, i))
    decreases |projects| - k
  {
    if k < i && Locate(disk, projects[k]).None? {
      AtFront(projects, disk, k + 1, i);
      assert NoneFound(projects, disk, k, i) <==> NoneFound(projects, disk, k + 1, i);
    }
  }

  /** An ascending list starting at `k` or later has at least `k + q` at position `q`. */
  lemma {:induction false} AscendFrom(s: seq<nat>, k: nat, q: nat)
    requires q < |s| && (forall x <- s :: k <= x) && Ascending(s)
    ensures k + q <= s[q]
  {
    assert s[q] in s;
    if q > 0 {
      AscendFrom(s, k, q - 1);
      assert s[q - 1] < s[q];
    }
  }

  /** The position of the active project in the loaded list. */
  function LoadedIndex(f: PersistedWorkspace, count: nat): nat {
    OrElse(Usable(f.activeProjectIndex, count), 0)
  }

  lemma {:induction false} ActiveSource(f: PersistedWorkspace, disk: Disk, ids: Ids)
    requires LoadOf(f, disk, ids).Loaded?
    ensures var s := Sources(f.projects, disk);
      s != [] && LoadOf(f, disk, ids).workspace.activeProject == Some(ids(ProjectSlot(s[LoadedIndex(f, |s|)])))
  {
    RestoredFrom(f.projects, disk, ids, 0);
  }

  /**
   The stored index counts all projects of the file, the loaded list holds only those that were found. The project
   that was active becomes active again if and only if none before it was skipped, or all before it were and the
   index falls off the end of what is left.
   */
  lemma {:induction false} ActiveProjectKeptExactly(f: PersistedWorkspace, disk: Disk, ids: Ids, i: nat)
    requires Unique(ids) && LoadOf(f, disk, ids).Loaded? && f.activeProjectIndex == Some(i)
    requires i < |f.projects| && Locate(disk, f.projects[i]).Some?
    ensures LoadOf(f, disk, ids).workspace.activeProject == Some(ids(ProjectSlot(i))) <==>
            AllFound(f.projects, disk, 0, i) || (NoneFound(f.projects, disk, 0, i) && |Sources(f.projects, disk)| <= i)
  {
    var s := Sources(f.projects, disk);
    ActiveSource(f, disk, ids);
    SlotIs(ids, s[LoadedIndex(f, |s|)], i);
    AtOwnPlace(f.projects, disk, 0, i);
    AtFront(f.projects, disk, 0, i);
  }

  lemma {:induction false} SlotIs(ids: Ids, a: nat, b: nat)
    requires Unique(ids)
    ensures ids(ProjectSlot(a)) == ids(ProjectSlot(b)) <==> a == b
  {
  }
}
