/** The watcher itself, as an object. */
module SessionWatcher {
  import opened Options
  import opened SessionLines
  import opened SessionTail
  import opened SessionIngest
  import opened SessionBlocks
  import opened WatcherPlan
  import opened WatcherSystem
  import opened WatcherCompleteness

  // Each method is checked against the functions the step system is built from, so that running a method is running
  // its events one after another.

  /** A tail that nothing comes between. */
  function TailNow(c: Codec, s: System, path: string): System {
    s.(ingest := s.ingest.(store := Tailed(c, s.ingest.store, path)))
  }

  function ReadNewMessages(c: Codec, s: System): System {
    if s.w.watchedFile.None? then s else TailNow(c, s, s.w.watchedFile.value)
  }

  function Drain(c: Codec, s: System, path: string): System {
    TailNow(c, s, path).(w := s.w.(drainedFiles := s.w.drainedFiles + {path}))
  }

  /** `startWatchingFile`: attach, then read once unless the open failed. */
  function WatchFile(c: Codec, s: System, path: string, result: Option<nat>): System {
    var t := AttachTo(s, path, result);
    if result.None? then t else ReadNewMessages(c, t)
  }

  function DrainAll(c: Codec, s: System, paths: seq<string>): System
    decreases |paths|
  {
    if paths == [] then s else DrainAll(c, Drain(c, s, paths[0]), paths[1..])
  }

  /** A directory scan that nothing interrupts. `result` is what opening the next file gives, if there is one. */
  function RunPlan(c: Codec, s: System, plan: DrainPlan, result: Option<nat>): System {
    var t := DrainAll(c, s, plan.toDrain);
    if plan.newWatched.None? then t else WatchFile(c, t, plan.newWatched.value, result)
  }

  ghost predicate PlansScan(s: System, names: seq<string>, plan: DrainPlan) {
    IsPlan(plan, SessionPaths(names, s.dir), s.w.watchedFile, s.w.drainedFiles, MTime(s.mtimes))
  }

  class ClaudeSessionWatcher {
    const c: Codec
    const dir: string

    // the watcher's own fields
    var dirSource: Option<nat>
    var dirFD: int
    var fileSource: Option<nat>
    var fileFD: int
    var watchedFile: Option<string>
    var drainedFiles: set<string>

    // what it acts on: the store and its readers, the file times, the process's descriptors, sources and queue
    const me: nat
    const tails: map<nat, InFlight>
    var store: Store
    var mtimes: map<string, int>
    var clock: int
    var openFds: map<nat, Owner>
    var sources: seq<Source>
    var tasks: seq<Task>

    constructor (c: Codec, dir: string, ingest: Ingest, me: nat, mtimes: map<string, int>, clock: int,
                 openFds: map<nat, Owner>, sources: seq<Source>)
      ensures State() == System(dir, ingest, me, mtimes, clock, openFds, sources, [], Idle, NEW_WATCHER)
      ensures this.c == c
    {
      this.c, this.dir, this.mtimes, this.clock := c, dir, mtimes, clock;
      this.store, this.tails, this.me := ingest.store, ingest.tails, me;
      this.openFds, this.sources, this.tasks := openFds, sources, [];
      dirSource, dirFD, fileSource, fileFD, watchedFile, drainedFiles := None, -1, None, -1, None, {};
    }

    function State(): System
      reads this
    {
      var w := Watcher(dirSource, dirFD, fileSource, fileFD, watchedFile, drainedFiles);
      System(dir, Ingest(store, tails), me, mtimes, clock, openFds, sources, tasks, Idle, w)
    }

    /** A block of `start()`; `dirResult` and `fileResult` are the outcomes of the two opens. */
    method Start(names: Option<seq<string>>, dirResult: Option<nat>, fileResult: Option<nat>)
      requires CanOpen(State(), dirResult) && CanOpen(State(), fileResult)
      requires dirResult.Some? ==> dirResult != fileResult
      modifies this
      ensures names.None? ==> State() == StartDirectoryWatcher(old(State()), dirResult)
      ensures names.Some? ==> exists plan ::
        var begun := StartDirectoryWatcher(old(State()), dirResult);
        PlansScan(begun, names.value, plan) && State() == RunPlan(c, begun, plan, fileResult)
    {
      StartDirWatcher(dirResult);
      CheckForNewSession(names, fileResult);
    }

    method StartDirWatcher(result: Option<nat>)
      requires CanOpen(State(), result)
      modifies this
      ensures State() == StartDirectoryWatcher(old(State()), result)
    {
      if result.None? {
        return;
      }
      var src := NewSource(result.value, Directory);
      dirFD := result.value;
      dirSource := Some(src);
    }

    /** A new source owns the descriptor it was opened with: its cancel handler captures `fd` as a local. */
    method NewSource(fd: nat, target: Target) returns (src: nat)
      requires fd !in openFds
      modifies this`sources, this`openFds
      ensures State() == AddSource(old(State()), fd, target) && src == |old(sources)|
    {
      src := |sources|;
      sources := sources + [Source(fd, target, false, false, false)];
      openFds := openFds[fd := Src(src)];
    }

    method CancelSource(src: Option<nat>)
      modifies this`sources
      ensures sources == Cancel(old(sources), src)
    {
      if src.Some? && src.value < |sources| {
        sources := sources[src.value := sources[src.value].(cancelled := true)];
      }
    }

    method CheckForNewSession(names: Option<seq<string>>, result: Option<nat>)
      requires CanOpen(State(), result)
      modifies this
      ensures names.None? ==> State() == old(State())
      ensures names.Some? ==> exists plan ::
        PlansScan(old(State()), names.value, plan) && State() == RunPlan(c, old(State()), plan, result)
    {
      if names.None? {
        return;
      }
      var plan := Plan(names.value, dir, watchedFile, drainedFiles, MTime(mtimes));
      var i := 0;
      while i < |plan.toDrain|
        invariant 0 <= i <= |plan.toDrain| && openFds == old(openFds)
        invariant DrainAll(c, State(), plan.toDrain[i..]) == DrainAll(c, old(State()), plan.toDrain)
      {
        var path := plan.toDrain[i];
        ghost var before := State();
        var after, _ := Tail(c, store, path);
        store := after;
        drainedFiles := drainedFiles + {path};
        assert State() == Drain(c, before, path);
        assert plan.toDrain[i..][1..] == plan.toDrain[i + 1..];
        i := i + 1;
      }
      if plan.newWatched.Some? {
        StartWatchingFile(plan.newWatched.value, result);
      }
      assert PlansScan(old(State()), names.value, plan);
    }

    method StartWatchingFile(path: string, result: Option<nat>)
      requires CanOpen(State(), result)
      modifies this
      ensures State() == WatchFile(c, old(State()), path, result)
    {
      CancelSource(fileSource);
      fileSource := None;
      fileFD := -1;
      watchedFile := Some(path);
      if result.None? {
        return;
      }
      var src := NewSource(result.value, File(path));
      fileFD := result.value;
      fileSource := Some(src);
      ReadMessages();
    }

    method ReadMessages()
      modifies this`store
      ensures State() == ReadNewMessages(c, old(State()))
    {
      if watchedFile.None? {
        return;
      }
      var after, _ := Tail(c, store, watchedFile.value);
      store := after;
    }

    /** The block a file event enqueues: `capturedPath` was fixed when the source was created. */
    method FileEvent(capturedPath: string)
      modifies this`store
      ensures watchedFile == Some(capturedPath) ==> State() == ReadNewMessages(c, old(State()))
      ensures watchedFile != Some(capturedPath) ==> State() == old(State())
    {
      if watchedFile != Some(capturedPath) {
        return;
      }
      ReadMessages();
    }

    method StopWatching()
      modifies this
      ensures State() == Stop(old(State()))
    {
      CancelSource(dirSource);
      dirSource := None;
      CancelSource(fileSource);
      fileSource := None;
      fileFD := -1;
      dirFD := -1;
    }
  }

  // ---------------------------------------------------------------------------------------------------
  // An uninterrupted block is a run of the step system
  // ---------------------------------------------------------------------------------------------------

  /**
   What the events of a run are held to: with `late` absent nothing, otherwise they are orderly and of the session
   files only the newest one and those of `late` are written to.
   */
  ghost predicate Allowed(c: Codec, late: Option<set<string>>, s: System, e: Event) {
    late.Some? ==>
      && Orderly(c, ToTheEnd, s, e)
      && (e.Grow? && Session(s.dir, s.Files(), e.path) && e.path !in late.value ==> IsNewest(s, e.path))
  }

  ghost predicate AllowedRun(c: Codec, late: Option<set<string>>, states: seq<System>, events: seq<Event>) {
    IsRun(c, states, events) && forall i :: 0 <= i < |events| ==> Allowed(c, late, states[i], events[i])
  }

  ghost predicate Reaches(c: Codec, late: Option<set<string>>, s: System, t: System) {
    exists states, events :: AllowedRun(c, late, states, events) && states[0] == s && states[|events|] == t
  }

  lemma {:induction false} ReachesSelf(c: Codec, late: Option<set<string>>, s: System)
    ensures Reaches(c, late, s, s)
  {
    assert AllowedRun(c, late, [s], []) && [s][0] == s;
  }

  lemma {:induction false} ReachesNext(c: Codec, late: Option<set<string>>, s: System, t: System, e: Event)
    requires Reaches(c, late, s, t) && Enabled(t, e) && Allowed(c, late, t, e)
    ensures Reaches(c, late, s, Next(c, t, e))
  {
    var states, events :| AllowedRun(c, late, states, events) && states[0] == s && states[|events|] == t;
    RunGoesOn(c, states, events, e);
    AllowedGoesOn(c, late, states, events, e, Next(c, t, e));
    var longer, more := states + [Next(c, t, e)], events + [e];
    assert AllowedRun(c, late, longer, more) && longer[0] == s && longer[|more|] == Next(c, t, e);
  }

  lemma {:induction false} AllowedGoesOn(c: Codec, late: Option<set<string>>, states: seq<System>, events: seq<Event>,
                                         e: Event, t: System)
    requires |states| == |events| + 1 && Allowed(c, late, states[|events|], e)
    requires forall i :: 0 <= i < |events| ==> Allowed(c, late, states[i], events[i])
    ensures var longer, more := states + [t], events + [e];
      forall i :: 0 <= i < |more| ==> Allowed(c, late, longer[i], more[i])
  {
    var longer, more := states + [t], events + [e];
    forall i | 0 <= i < |more| ensures Allowed(c, late, longer[i], more[i])
    {
      if i < |events| {
        var was, event := states[i], events[i];
        assert Allowed(c, late, was, event);
        assert longer[i] == was && more[i] == event;
      } else {
        assert longer[i] == states[|events|] && more[i] == e;
      }
    }
  }

  lemma {:induction false} RunGoesOn(c: Codec, states: seq<System>, events: seq<Event>, e: Event)
    requires IsRun(c, states, events) && Enabled(states[|events|], e)
    ensures IsRun(c, states + [Next(c, states[|events|], e)], events + [e])
  {
    var longer, more := states + [Next(c, states[|events|], e)], events + [e];
    forall i | 0 <= i < |more| ensures Enabled(longer[i], more[i]) && longer[i + 1] == Next(c, longer[i], more[i])
    {
      if i < |events| {
        assert longer[i] == states[i] && longer[i + 1] == states[i + 1] && more[i] == events[i];
      }
    }
  }

  /** The steps of a tail, as far as they can be taken. */
  lemma {:induction false} StepsReach(c: Codec, late: Option<set<string>>, s: System, t: System, steps: seq<Step>)
    requires Reaches(c, late, s, t) && forall step <- steps :: IsTailStep(step)
    ensures Reaches(c, late, s, t.(ingest := Run(c, t.ingest, steps)))
    decreases |steps|
  {
    if steps != [] {
      var front, last := steps[..|steps| - 1], steps[|steps| - 1];
      assert last in steps;
      StepsReach(c, late, s, t, front);
      var u := t.(ingest := Run(c, t.ingest, front));
      if Can(u.ingest, last) {
        RunOne(c, u.ingest, last);
        ReachesNext(c, late, s, u, TailStep(last));
      }
    } else {
      assert t.(ingest := t.ingest) == t;
    }
  }

  lemma {:induction false} OnlyTailSteps(k: nat, n: nat, step: Step)
    requires step in EmitSteps(k, n)
    ensures IsTailStep(step)
  {
    if n > 0 && step in EmitSteps(k, n - 1) {
      OnlyTailSteps(k, n - 1, step);
    }
  }

  lemma {:induction false} RestIsTailSteps(c: Codec, files: map<string, string>, path: string, cursor: nat, k: nat,
                                           step: Step)
    requires step in RestOfTail(c, files, path, cursor, k)
    ensures IsTailStep(step)
  {
    var window := Read(c, files, path, cursor);
    if window.Window? && step in EmitSteps(k, |window.lines|) {
      OnlyTailSteps(k, |window.lines|, step);
    }
  }

  /** A tail that has just begun runs to its end. */
  lemma {:induction false} TailReaches(c: Codec, late: Option<set<string>>, s: System, t: System, u: System,
                                       path: string)
    requires Reaches(c, late, s, t) && u.Free()
    requires t == u.(ingest := Exec(c, u.ingest, Begin(u.me, path)))
    ensures Reaches(c, late, s, TailNow(c, u, path))
  {
    var store, cursor := u.ingest.store, u.ingest.store.View().CursorOf(path);
    var rest := RestOfTail(c, store.files, path, cursor, u.me);
    forall step | step in rest ensures IsTailStep(step)
    {
      RestIsTailSteps(c, store.files, path, cursor, u.me, step);
    }
    StepsReach(c, late, s, t, rest);
    WholeTailRuns(c, store, u.ingest.tails, path, u.me);
    RunAppend(c, u.ingest, [Begin(u.me, path)], rest);
    RunOne(c, u.ingest, Begin(u.me, path));
    assert u.ingest == Ingest(store, u.ingest.tails);
  }

  lemma {:induction false} DrainsReach(c: Codec, late: Option<set<string>>, s: System, t: System)
    requires t.phase.Draining? && t.Free() && Reaches(c, late, s, t)
    ensures Reaches(c, late, s, DrainAll(c, t, t.phase.todo).(phase := Draining([], t.phase.next)))
    decreases |t.phase.todo|
  {
    var todo, next := t.phase.todo, t.phase.next;
    if todo == [] {
      assert t.(phase := Draining([], next)) == t;
    } else {
      var u := t.(phase := Draining(todo[1..], next), w := t.w.(drainedFiles := t.w.drainedFiles + {todo[0]}));
      RunOne(c, t.ingest, Begin(t.me, todo[0]));
      ReachesNext(c, late, s, t, DrainOne);
      TailReaches(c, late, s, Next(c, t, DrainOne), u, todo[0]);
      var drained := TailNow(c, u, todo[0]);
      assert drained == Drain(c, t, todo[0]).(phase := Draining(todo[1..], next));
      DrainsReach(c, late, s, drained);
      DrainAllKeeps(c, Drain(c, t, todo[0]), todo[1..], drained.phase);
    }
  }

  /** Draining changes the database and the set of drained files only. */
  lemma {:induction false} DrainAllKeeps(c: Codec, s: System, paths: seq<string>, phase: Phase)
    ensures DrainAll(c, s.(phase := phase), paths) == DrainAll(c, s, paths).(phase := phase)
    ensures var t := DrainAll(c, s, paths);
      && t == s.(ingest := t.ingest, w := t.w) && t.w == s.w.(drainedFiles := t.w.drainedFiles)
      && t.ingest.tails == s.ingest.tails && t.Files() == s.Files()
      && t.w.drainedFiles == s.w.drainedFiles + set p <- paths
    decreases |paths|
  {
    if paths != [] {
      DrainAllKeeps(c, Drain(c, s, paths[0]), paths[1..], phase);
      TailedView(c, s.ingest.store, paths[0]);
      assert paths == [paths[0]] + paths[1..];
    }
  }

  /** The end of a scan, once everything is drained. */
  lemma {:induction false} AttachReaches(c: Codec, late: Option<set<string>>, s: System, t: System, result: Option<nat>)
    requires t.phase.Draining? && t.phase.todo == [] && t.Free() && CanOpen(t, result) && Reaches(c, late, s, t)
    requires late.Some? ==> result.Some?
    ensures var next := t.phase.next;
      Reaches(c, late, s, (if next.None? then t else WatchFile(c, t, next.value, result)).(phase := Idle))
  {
    var next := t.phase.next;
    if next.None? {
      ReachesNext(c, late, s, t, FinishScan);
    } else {
      var attached := Next(c, t, Attach(result));
      ReachesNext(c, late, s, t, Attach(result));
      if result.Some? {
        ReachesNext(c, late, s, attached, InitialRead);
        RunOne(c, attached.ingest, Begin(t.me, next.value));
        TailReaches(c, late, s, Next(c, attached, InitialRead), attached.(phase := Idle), next.value);
      }
    }
  }

  lemma {:induction false} ScanReaches(c: Codec, late: Option<set<string>>, s: System, t: System, names: seq<string>,
                                       plan: DrainPlan, result: Option<nat>)
    requires Reaches(c, late, s, t) && Enabled(t, Scan(names, plan)) && t.Free() && CanOpen(t, result)
    requires late.Some? ==> result.Some?
    ensures Reaches(c, late, s, RunPlan(c, t, plan, result).(phase := Idle))
  {
    var planned := Next(c, t, Scan(names, plan));
    ReachesNext(c, late, s, t, Scan(names, plan));
    DrainsReach(c, late, s, planned);
    DrainAllKeeps(c, t, plan.toDrain, planned.phase);
    DrainAllKeeps(c, t, plan.toDrain, Draining([], plan.newWatched));
    AttachReaches(c, late, s, DrainAll(c, t, plan.toDrain).(phase := Draining([], plan.newWatched)), result);
  }

  /** What `CheckForNewSession` does is what the scan's events do when nothing comes between them. */
  lemma {:induction false} ScanBlockIsARun(c: Codec, s: System, names: seq<string>, plan: DrainPlan,
                                           result: Option<nat>)
    requires Enabled(s, Scan(names, plan)) && s.Free() && CanOpen(s, result)
    ensures Reaches(c, None, s, RunPlan(c, s, plan, result).(phase := Idle))
  {
    ReachesSelf(c, None, s);
    ScanReaches(c, None, s, s, names, plan, result);
  }

  // ---------------------------------------------------------------------------------------------------
  // What a scan reads
  // ---------------------------------------------------------------------------------------------------

  /** A tail leaves its file fully read, and what was readable stays so. */
  lemma {:induction false} TailReadsAll(c: Codec, i: Ingest, k: nat, path: string)
    requires c.Sound() && StoreInv(c, i) && k !in i.tails
    ensures var t := i.(store := Tailed(c, i.store, path));
      && StoreInv(c, t) && t.store.files == i.store.files
      && forall p :: FullyRead(t.store, p) <==> p == path || FullyRead(i.store, p)
  {
    var s := i.store;
    var steps := TailSteps(c, s, path, k);
    TailedView(c, s, path);
    ViewWithin(i);
    ViewDecodes(c, i, path);
    assert i == Ingest(s, i.tails);
    WholeTailRuns(c, s, i.tails, path, k);
    forall step | step in steps ensures !step.Append?
    {
      if step in RestOfTail(c, s.files, path, s.View().CursorOf(path), k) {
        RestIsTailSteps(c, s.files, path, s.View().CursorOf(path), k, step);
      }
    }
    StoreInvSteps(c, i, steps);
  }

  lemma {:induction false} StoreInvSteps(c: Codec, i: Ingest, steps: seq<Step>)
    requires c.Sound() && StoreInv(c, i) && forall step <- steps :: !step.Append?
    ensures StoreInv(c, Run(c, i, steps))
    decreases |steps|
  {
    if steps != [] {
      assert steps[|steps| - 1] in steps;
      StoreInvSteps(c, i, steps[..|steps| - 1]);
      StoreInvStep(c, Run(c, i, steps[..|steps| - 1]), steps[|steps| - 1]);
    }
  }

  lemma {:induction false} DrainAllReads(c: Codec, s: System, paths: seq<string>, p: string)
    requires c.Sound() && StoreInv(c, s.ingest) && s.Free()
    ensures var t := DrainAll(c, s, paths);
      && StoreInv(c, t.ingest) && t.Free() && t.Files() == s.Files()
      && (FullyRead(t.ingest.store, p) <==> p in paths || FullyRead(s.ingest.store, p))
    decreases |paths|
  {
    if paths != [] {
      TailReadsAll(c, s.ingest, s.me, paths[0]);
      DrainAllReads(c, Drain(c, s, paths[0]), paths[1..], p);
      assert paths == [paths[0]] + paths[1..];
    }
  }

  /** A scan reads what it drains and the file it turns to, and nothing else. */
  lemma {:induction false} ScanReads(c: Codec, s: System, plan: DrainPlan, result: Option<nat>, p: string)
    requires c.Sound() && StoreInv(c, s.ingest) && s.Free()
    ensures var t := RunPlan(c, s, plan, result);
      && StoreInv(c, t.ingest) && t.Free() && t.Files() == s.Files()
      && (FullyRead(t.ingest.store, p) <==>
            p in plan.toDrain || (plan.newWatched == Some(p) && result.Some?) || FullyRead(s.ingest.store, p))
  {
    DrainAllReads(c, s, plan.toDrain, p);
    if plan.newWatched.Some? && result.Some? {
      var t := AttachTo(DrainAll(c, s, plan.toDrain), plan.newWatched.value, result);
      TailReadsAll(c, t.ingest, t.me, plan.newWatched.value);
    }
  }

  /**
   Rotating away from a file leaves it fully read if and only if it had not been drained before or had nothing
   unread. A session that was left, resumed and left again is in `drainedFiles`, so bytes written to it since
   its last event are not read, although the planner's comment promises the re-drain always.
   */
  lemma {:induction false} RotationReadsPriorExactly(c: Codec, s: System, names: seq<string>, plan: DrainPlan,
                                                     prior: string, result: Option<nat>)
    requires c.Sound() && StoreInv(c, s.ingest) && s.Free() && PlansScan(s, names, plan)
    requires s.w.watchedFile == Some(prior) && plan.newWatched.Some?
    ensures FullyRead(RunPlan(c, s, plan, result).ingest.store, prior)
       <==> prior !in s.w.drainedFiles || FullyRead(s.ingest.store, prior)
  {
    ScanReads(c, s, plan, result, prior);
    PriorIsDrainedExactly(plan, SessionPaths(names, s.dir), prior, s.w.drainedFiles, MTime(s.mtimes));
  }

  /** How a watched file comes to be in `drainedFiles`: it was left behind once and is the newest again. */
  lemma {:induction false} ResumedFileStaysDrained(c: Codec, s: System, names: seq<string>, plan: DrainPlan,
                                                   resumed: string, result: Option<nat>)
    requires PlansScan(s, names, plan) && plan.newWatched == Some(resumed) && resumed in s.w.drainedFiles
    ensures var t := RunPlan(c, s, plan, result);
      t.w.watchedFile == Some(resumed) && resumed in t.w.drainedFiles
  {
    DrainAllKeeps(c, s, plan.toDrain, Idle);
  }

  /**
   `stop()` forgets the sources but not the watched path. Starting the same object again therefore watches a
   file again if and only if the newest file is not the one watched before.
   */
  lemma {:induction false} StartAfterStopWatchesExactly(c: Codec, s: System, names: seq<string>, plan: DrainPlan,
                                                        dirResult: Option<nat>, fd: nat)
    requires SessionPaths(names, s.dir) != []
    requires PlansScan(StartDirectoryWatcher(Stop(s), dirResult), names, plan)
    ensures var t := RunPlan(c, StartDirectoryWatcher(Stop(s), dirResult), plan, Some(fd));
      t.w.fileSource.Some? <==> s.w.watchedFile != Some(Latest(SessionPaths(names, s.dir), MTime(s.mtimes)))
  {
    DrainAllKeeps(c, StartDirectoryWatcher(Stop(s), dirResult), plan.toDrain, Idle);
  }
}
