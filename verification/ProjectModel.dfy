/** Projects and their workstreams. */
module ProjectModel {
  // Both are objects updated in place; beside them are the values they stand for.

  import opened Options
  import opened PaneModel

  /** The value of a workstream object. Identifiers are unique, as UUIDs are. */
  datatype Workstream = Workstream(id: nat, name: string, isDefault: bool, branch: Option<string>,
                                   worktreePath: Option<string>, panes: seq<Pane>, isActive: bool)
  {
    function EffectiveRoot(projectPath: string): string {
      if worktreePath.Some? then worktreePath.value else projectPath
    }
  }

  /** The value of a project object. `active` is `activeWorkstreamID`. */
  datatype Project = Project(id: nat, name: string, path: string, bookmark: Option<string>,
                             workstreams: seq<Workstream>, active: Option<nat>, isActive: bool)

  // ---------------------------------------------------------------------------------------------------
  // Operations on values
  // ---------------------------------------------------------------------------------------------------

  /** The first index with the identifier, or the length. */
  function IndexOf(wss: seq<Workstream>, id: nat): (i: nat)
    ensures i <= |wss| && (i < |wss| ==> wss[i].id == id)
    ensures forall j :: 0 <= j < i ==> wss[j].id != id
  {
    IndexFrom(wss, id, 0)
  }

  function IndexFrom(wss: seq<Workstream>, id: nat, from: nat): (i: nat)
    requires from <= |wss|
    ensures from <= i <= |wss| && (i < |wss| ==> wss[i].id == id)
    ensures forall j :: from <= j < i ==> wss[j].id != id
    decreases |wss| - from
  {
    if from == |wss| || wss[from].id == id then from else IndexFrom(wss, id, from + 1)
  }

  /** The first default workstream, or the first of all. */
  function DefaultIndex(wss: seq<Workstream>): (i: nat)
    requires wss != []
    ensures i < |wss|
    ensures wss[i].isDefault || (i == 0 && forall j :: 0 <= j < |wss| ==> !wss[j].isDefault)
    ensures forall j :: 0 <= j < i ==> !wss[j].isDefault
  {
    var i := DefaultFrom(wss, 0);
    if i < |wss| then i else 0
  }

  function DefaultFrom(wss: seq<Workstream>, from: nat): (i: nat)
    requires from <= |wss|
    ensures from <= i <= |wss| && (i < |wss| ==> wss[i].isDefault)
    ensures forall j :: from <= j < i ==> !wss[j].isDefault
    decreases |wss| - from
  {
    if from == |wss| || wss[from].isDefault then from else DefaultFrom(wss, from + 1)
  }

  /** `activeWorkstream`: the selected one if it is there, the default one if none is selected. */
  function ActiveIndex(p: Project): Option<nat> {
    if p.active.Some? then
      var i := IndexOf(p.workstreams, p.active.value);
      if i < |p.workstreams| then Some(i) else None
    else if p.workstreams == [] then None
    else Some(DefaultIndex(p.workstreams))
  }

  /** Every flag cleared except that of the workstream with the identifier. */
  function Flagged(wss: seq<Workstream>, id: Option<nat>): (r: seq<Workstream>)
    ensures |r| == |wss|
    ensures forall i :: 0 <= i < |r| ==> r[i] == wss[i].(isActive := Some(wss[i].id) == id)
  {
    seq(|wss|, i requires 0 <= i < |wss| => wss[i].(isActive := Some(wss[i].id) == id))
  }

  function Added(p: Project, ws: Workstream): Project {
    p.(workstreams := Flagged(p.workstreams + [ws], Some(ws.id)), active := Some(ws.id))
  }

  /** The guards of `removeWorkstream`, in order: not the last one, present, not a default one. */
  predicate Removable(p: Project, id: nat) {
    && |p.workstreams| > 1
    && var i := IndexOf(p.workstreams, id);
       i < |p.workstreams| && !p.workstreams[i].isDefault
  }

  function Without(wss: seq<Workstream>, i: nat): (r: seq<Workstream>)
    requires i < |wss|
    ensures |r| == |wss| - 1
    ensures forall j :: 0 <= j < |r| ==> r[j] == wss[if j < i then j else j + 1]
  {
    wss[..i] + wss[i + 1..]
  }

  /** The default workstream flagged and selected. */
  function DefaultActivated(p: Project): Project
    requires p.workstreams != []
  {
    var d := DefaultIndex(p.workstreams);
    var def := p.workstreams[d];
    p.(workstreams := p.workstreams[d := def.(isActive := true)], active := Some(def.id))
  }

  function Removed(p: Project, id: nat): Project {
    if !Removable(p, id) then p
    else
      var i := IndexOf(p.workstreams, id);
      var rest := Without(p.workstreams, i);
      if p.active != Some(id) then p.(workstreams := rest)
      else DefaultActivated(p.(workstreams := rest))
  }

  function Switched(p: Project, id: nat): Project {
    p.(workstreams := Flagged(p.workstreams, Some(id)), active := Some(id))
  }

  // ---------------------------------------------------------------------------------------------------
  // The objects
  // ---------------------------------------------------------------------------------------------------

  class WorkstreamModel {
    const id: nat
    var name: string
    var isDefault: bool
    var branch: Option<string>
    var worktreePath: Option<string>
    var panes: seq<Pane>
    var isActive: bool

    constructor (id: nat, name: string, isDefault: bool, branch: Option<string>, worktreePath: Option<string>)
      ensures View() == Workstream(id, name, isDefault, branch, worktreePath, [], false)
    {
      this.id, this.name, this.isDefault, this.branch, this.worktreePath := id, name, isDefault, branch, worktreePath;
      panes, isActive := [], false;
    }

    function View(): Workstream
      reads this
    {
      Workstream(id, name, isDefault, branch, worktreePath, panes, isActive)
    }
  }

  /** The values of a list of workstream objects. */
  function Views(wss: seq<WorkstreamModel>): (r: seq<Workstream>)
    reads wss
    ensures |r| == |wss| && forall i :: 0 <= i < |r| ==> r[i] == wss[i].View()
  {
    seq(|wss|, i requires 0 <= i < |wss| reads wss => wss[i].View())
  }

  ghost predicate Distinct(wss: seq<WorkstreamModel>) {
    forall i, j :: 0 <= i < j < |wss| ==> wss[i].id != wss[j].id
  }

  class ProjectModel {
    const id: nat
    var name: string
    var path: string
    var bookmarkData: Option<string>
    var workstreams: seq<WorkstreamModel>
    var activeWorkstreamID: Option<nat>
    var isActive: bool

    /** A new project: one default workstream, flagged active, and nothing selected. */
    constructor (id: nat, name: string, trustedPath: string, defaultID: nat)
      ensures Valid() && fresh(workstreams)
      ensures View() == Project(id, name, trustedPath, None,
                                [Workstream(defaultID, "default", true, None, None, [], true)], None, false)
    {
      this.id, this.name, this.path, bookmarkData := id, name, trustedPath, None;
      activeWorkstreamID, isActive := None, false;
      var defaultWS := new WorkstreamModel(defaultID, "default", true, None, None);
      workstreams := [defaultWS];
      new;
      defaultWS.isActive := true;
    }

    /** The initializer that takes over a list of workstreams. */
    constructor Restored(id: nat, name: string, trustedPath: string, bookmarkData: Option<string>,
                         given: seq<WorkstreamModel>, defaultID: nat)
      requires Distinct(given)
      modifies given
      ensures Valid() && View() == Adopted(id, name, trustedPath, bookmarkData, old(Views(given)), defaultID)
    {
      this.id, this.name, this.path, this.bookmarkData := id, name, trustedPath, bookmarkData;
      activeWorkstreamID, isActive := None, false;
      workstreams := given;
      new;
      if given == [] {
        var defaultWS := new WorkstreamModel(defaultID, "default", true, None, None);
        defaultWS.isActive := true;
        workstreams := [defaultWS];
        activeWorkstreamID := Some(defaultID);
      } else {
        var first := FirstFlagged(Views(given));
        if first == |given| {
          ActivateDefault();
        } else {
          activeWorkstreamID := Some(given[first].id);
        }
      }
    }

    /** Flag and select the default workstream. */
    method ActivateDefault()
      requires Valid() && workstreams != []
      modifies this`activeWorkstreamID, workstreams
      ensures Valid() && View() == DefaultActivated(old(View()))
    {
      var d := DefaultIndex(Views(workstreams));
      var def := workstreams[d];
      activeWorkstreamID := Some(def.id);
      def.isActive := true;
    }

    ghost predicate Valid()
      reads this
    {
      Distinct(workstreams)
    }

    function View(): Project
      reads this, workstreams
    {
      Project(id, name, path, bookmarkData, Views(workstreams), activeWorkstreamID, isActive)
    }

    method AddWorkstream(ws: WorkstreamModel)
      requires Valid() && forall w <- workstreams :: w.id != ws.id
      modifies this, workstreams, ws
      ensures Valid() && workstreams == old(workstreams) + [ws]
      ensures View() == Added(old(View()), old(ws.View()))
    {
      workstreams := workstreams + [ws];
      ghost var values := Views(workstreams);
      assert values == old(Views(workstreams)) + [old(ws.View())];
      ClearFlags();
      assert Views(workstreams) == Flagged(values, None);
      ws.isActive := true;
      activeWorkstreamID := Some(ws.id);
      assert Views(workstreams) == Flagged(values, Some(ws.id));
    }

    method ClearFlags()
      requires Valid()
      modifies workstreams
      ensures View() == old(View()).(workstreams := Flagged(old(Views(workstreams)), None))
    {
      for i := 0 to |workstreams|
        invariant forall j :: 0 <= j < |workstreams| ==>
          workstreams[j].View() == var w := old(workstreams[j].View()); if j < i then w.(isActive := false) else w
      {
        workstreams[i].isActive := false;
      }
    }

    method RemoveWorkstream(id: nat) returns (removed: bool)
      requires Valid()
      modifies this, workstreams
      ensures Valid() && removed == Removable(old(View()), id)
      ensures !removed ==> workstreams == old(workstreams)
      ensures View() == Removed(old(View()), id)
    {
      if |workstreams| <= 1 {
        return false;
      }
      var i := IndexOf(Views(workstreams), id);
      if i == |workstreams| || workstreams[i].isDefault {
        return false;
      }
      ghost var values := Views(workstreams);
      workstreams := workstreams[..i] + workstreams[i + 1..];
      assert Views(workstreams) == Without(values, i);
      if activeWorkstreamID == Some(id) {
        ActivateDefault();
      }
      removed := true;
    }

    method SwitchWorkstream(id: nat)
      requires Valid()
      modifies this, workstreams
      ensures Valid() && workstreams == old(workstreams) && View() == Switched(old(View()), id)
    {
      for i := 0 to |workstreams|
        invariant unchanged(this)
        invariant forall j :: 0 <= j < |workstreams| ==>
          workstreams[j].View() ==
            var w := old(workstreams[j].View()); if j < i then w.(isActive := w.id == id) else w
      {
        workstreams[i].isActive := workstreams[i].id == id;
      }
      activeWorkstreamID := Some(id);
    }
  }

  function FirstFlagged(wss: seq<Workstream>): (i: nat)
    ensures i <= |wss| && (i < |wss| ==> wss[i].isActive)
    ensures forall j :: 0 <= j < i ==> !wss[j].isActive
  {
    if wss == [] then 0 else if wss[0].isActive then 0 else 1 + FirstFlagged(wss[1..])
  }

  /** The value `ProjectModel.Restored` builds. */
  function Adopted(id: nat, name: string, path: string, bookmark: Option<string>, given: seq<Workstream>,
                   defaultID: nat): Project
  {
    if given == [] then
      Project(id, name, path, bookmark, [Workstream(defaultID, "default", true, None, None, [], true)],
              Some(defaultID), false)
    else
      var first := FirstFlagged(given);
      if first < |given| then Project(id, name, path, bookmark, given, Some(given[first].id), false)
      else DefaultActivated(Project(id, name, path, bookmark, given, None, false))
  }

  // ---------------------------------------------------------------------------------------------------
  // The active workstream
  // ---------------------------------------------------------------------------------------------------

  ghost predicate DistinctIds(wss: seq<Workstream>) {
    forall i, j :: 0 <= i < j < |wss| ==> wss[i].id != wss[j].id
  }

  ghost predicate Member(p: Project, id: nat) {
    exists i :: 0 <= i < |p.workstreams| && p.workstreams[i].id == id
  }

  /** The one `isActive` flag in the project is on the active workstream, which is known by name or default. */
  ghost predicate ActiveInv(p: Project) {
    && DistinctIds(p.workstreams) && ActiveIndex(p).Some?
    && (p.active.None? ==> p.workstreams[DefaultIndex(p.workstreams)].isDefault)
    && FlagOnlyAt(p.workstreams, ActiveIndex(p).value)
  }

  predicate FlagOnlyAt(wss: seq<Workstream>, a: nat) {
    forall i :: 0 <= i < |wss| ==> (wss[i].isActive <==> i == a)
  }

  datatype Op = Add(ws: Workstream) | Remove(id: nat) | Switch(id: nat)

  /** New workstreams have new identifiers, and only members are switched to. */
  ghost predicate Allowed(p: Project, op: Op) {
    (op.Add? ==> !Member(p, op.ws.id)) && (op.Switch? ==> Member(p, op.id))
  }

  function Apply(p: Project, op: Op): Project {
    match op
    case Add(ws) => Added(p, ws)
    case Remove(id) => Removed(p, id)
    case Switch(id) => Switched(p, id)
  }

  lemma {:induction false} IndexOfIs(wss: seq<Workstream>, i: nat)
    requires DistinctIds(wss) && i < |wss|
    ensures IndexOf(wss, wss[i].id) == i
  {
    var k := IndexOf(wss, wss[i].id);
    if k < i {
      assert false;
    }
  }

  /** Where index `j` goes when index `i` is removed. */
  function Shifted(j: nat, i: nat): nat
    requires j != i
  {
    if j < i then j else j - 1
  }

  lemma {:induction false} WithoutFlag(wss: seq<Workstream>, i: nat, a: nat)
    requires FlagOnlyAt(wss, a) && i < |wss| && i != a
    ensures FlagOnlyAt(Without(wss, i), Shifted(a, i))
  {
  }

  lemma {:induction false} WithoutDefault(wss: seq<Workstream>, i: nat)
    requires i < |wss| && wss[DefaultIndex(wss)].isDefault && !wss[i].isDefault
    ensures |wss| > 1 && DefaultIndex(Without(wss, i)) == Shifted(DefaultIndex(wss), i)
    ensures Without(wss, i)[DefaultIndex(Without(wss, i))].isDefault
  {
    var d, rest := DefaultIndex(wss), Without(wss, i);
    var e := Shifted(d, i);
    assert rest[e] == wss[d];
    var k := DefaultIndex(rest);
    assert rest[k].isDefault && k <= e;
    assert k < i ==> wss[k].isDefault;
    assert k >= i ==> wss[k + 1].isDefault;
  }

  lemma {:induction false} RemovedInv(p: Project, id: nat)
    requires ActiveInv(p) && Removable(p, id)
    ensures ActiveInv(Removed(p, id))
  {
    var i, a := IndexOf(p.workstreams, id), ActiveIndex(p).value;
    var rest := Without(p.workstreams, i);
    if p.active == Some(id) {
      assert a == i;
      DefaultActivatedInv(p.(workstreams := rest));
    } else if p.active.Some? {
      WithoutFlag(p.workstreams, i, a);
      assert rest[Shifted(a, i)].id == p.active.value;
      IndexOfIs(rest, Shifted(a, i));
    } else {
      WithoutFlag(p.workstreams, i, a);
      WithoutDefault(p.workstreams, i);
    }
  }

  lemma {:induction false} DefaultActivatedInv(p: Project)
    requires DistinctIds(p.workstreams) && p.workstreams != []
    requires forall i :: 0 <= i < |p.workstreams| ==> !p.workstreams[i].isActive
    ensures ActiveInv(DefaultActivated(p))
  {
    IndexOfIs(DefaultActivated(p).workstreams, DefaultIndex(p.workstreams));
  }

  lemma {:induction false} AddedInv(p: Project, ws: Workstream)
    requires ActiveInv(p) && !Member(p, ws.id)
    ensures ActiveInv(Added(p, ws))
  {
    IndexOfIs(Added(p, ws).workstreams, |p.workstreams|);
  }

  lemma {:induction false} SwitchedInv(p: Project, id: nat)
    requires ActiveInv(p) && Member(p, id)
    ensures ActiveInv(Switched(p, id))
  {
    var i :| 0 <= i < |p.workstreams| && p.workstreams[i].id == id;
    IndexOfIs(Switched(p, id).workstreams, i);
  }

  lemma {:induction false} ActiveInvStep(p: Project, op: Op)
    requires ActiveInv(p) && Allowed(p, op)
    ensures ActiveInv(Apply(p, op))
  {
    match op
    case Add(ws) => AddedInv(p, ws);
    case Remove(id) => if Removable(p, id) { RemovedInv(p, id); }
    case Switch(id) => SwitchedInv(p, id);
  }

  ghost predicate AllowedRun(p: Project, ops: seq<Op>)
    decreases |ops|
  {
    ops != [] ==> Allowed(p, ops[0]) && AllowedRun(Apply(p, ops[0]), ops[1..])
  }

  function ApplyAll(p: Project, ops: seq<Op>): Project
    decreases |ops|
  {
    if ops == [] then p else ApplyAll(Apply(p, ops[0]), ops[1..])
  }

  /**
   Whatever is added, removed and switched to: there is always a workstream, exactly one carries the flag, it is
   the one `activeWorkstream` returns, and no default workstream is ever lost.
   */
  lemma {:induction false} OneActiveWorkstreamAlways(p: Project, ops: seq<Op>)
    requires ActiveInv(p) && AllowedRun(p, ops)
    ensures ActiveInv(ApplyAll(p, ops)) && ApplyAll(p, ops).workstreams != []
    ensures forall id :: HasDefault(p, id) ==> HasDefault(ApplyAll(p, ops), id)
    decreases |ops|
  {
    if ops != [] {
      ActiveInvStep(p, ops[0]);
      DefaultStaysDefault(p, ops[0]);
      OneActiveWorkstreamAlways(Apply(p, ops[0]), ops[1..]);
    }
  }

  ghost predicate HasDefault(p: Project, id: nat) {
    exists i :: 0 <= i < |p.workstreams| && p.workstreams[i].id == id && p.workstreams[i].isDefault
  }

  lemma {:induction false} DefaultStaysDefault(p: Project, op: Op)
    requires DistinctIds(p.workstreams) && Allowed(p, op)
    ensures forall id :: HasDefault(p, id) ==> HasDefault(Apply(p, op), id)
  {
    forall id | HasDefault(p, id) ensures HasDefault(Apply(p, op), id)
    {
      var j :| 0 <= j < |p.workstreams| && p.workstreams[j].id == id && p.workstreams[j].isDefault;
      DefaultStaysAt(p, op, j);
    }
  }

  lemma {:induction false} DefaultStaysAt(p: Project, op: Op, j: nat)
    requires j < |p.workstreams| && p.workstreams[j].isDefault
    ensures HasDefault(Apply(p, op), p.workstreams[j].id)
  {
    var q := Apply(p, op);
    var k := if op.Remove? && Removable(p, op.id) then Shifted(j, IndexOf(p.workstreams, op.id)) else j;
    assert q.workstreams[k].id == p.workstreams[j].id && q.workstreams[k].isDefault;
  }

  /** A fresh project meets the invariant, although nothing is selected yet. */
  lemma {:induction false} FreshProjectInv(id: nat, name: string, path: string, bookmark: Option<string>,
                                           defaultID: nat)
    ensures ActiveInv(Project(id, name, path, bookmark,
                              [Workstream(defaultID, "default", true, None, None, [], true)], None, false))
  {
  }

  /** Switching keeps the invariant if and only if the target is a member: `switchWorkstream` does not check. */
  lemma {:induction false} SwitchIsSafeExactly(p: Project, id: nat)
    requires ActiveInv(p)
    ensures ActiveInv(Switched(p, id)) <==> Member(p, id)
  {
    if Member(p, id) {
      SwitchedInv(p, id);
    } else {
      var q := Switched(p, id);
      if ActiveIndex(q).Some? {
        assert false;
      }
    }
  }

  /** Taking over a list of workstreams is safe if and only if at most one of them is flagged. */
  lemma {:induction false} AdoptionIsSafeExactly(id: nat, name: string, path: string, bookmark: Option<string>,
                                                 given: seq<Workstream>, defaultID: nat)
    requires DistinctIds(given)
    ensures ActiveInv(Adopted(id, name, path, bookmark, given, defaultID))
       <==> forall i, j :: 0 <= i < j < |given| ==> !(given[i].isActive && given[j].isActive)
  {
    var p := Adopted(id, name, path, bookmark, given, defaultID);
    var first := FirstFlagged(given);
    if given == [] {
    } else if first == |given| {
      IndexOfIs(p.workstreams, DefaultIndex(given));
    } else {
      IndexOfIs(p.workstreams, first);
    }
  }
}
