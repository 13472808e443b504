/** The session watcher as a step system. */
module WatcherSystem {
  // A serial state queue owns the watcher's fields. Directory and file events arrive on other threads and only
  // enqueue tasks; cancelled sources close their descriptors later; the kernel reuses freed descriptors; other
  // programs create and grow files between any two actions of a task, and within a tail; watchers of other panes tail
  // the same files; the process may end at any point.

  import opened Options
  import opened SessionLines
  import opened SessionTail
  import opened SessionIngest
  import opened SessionDuplicates
  import opened SessionBlocks
  import opened SessionOverlaps
  import opened WatcherPlan

  datatype Target = Directory | File(path: string)

  /**
   A dispatch source. `pending`: the kernel has an event for it that no handler has taken yet.
   `cancelled`: `cancel()` was called.  `closed`: its cancel handler has run.
   */
  datatype Source = Source(fd: nat, target: Target, pending: bool, cancelled: bool, closed: bool)

  /** Blocks waiting on the state queue. A `ReadTask` carries the path its event handler captured. */
  datatype Task = StartTask | CheckTask | ReadTask(path: string) | StopTask

  /** Where the state queue stands inside the task it is running. */
  datatype Phase =
    | Idle
    | Scanning
    | Draining(todo: seq<string>, next: Option<string>)
    | Reading

  /** The watcher's own fields. Sources are named by their index; -1 is the absent descriptor. */
  datatype Watcher = Watcher(dirSource: Option<nat>, dirFD: int, fileSource: Option<nat>, fileFD: int,
                             watchedFile: Option<string>, drainedFiles: set<string>)

  /** Who a descriptor of this process belongs to. */
  datatype Owner = Src(id: nat) | Elsewhere

  /** `me`: this watcher among the readers. The queue is busy with a tail while `me` is inside one. */
  datatype System = System(dir: string, ingest: Ingest, me: nat, mtimes: map<string, int>, clock: int,
                           openFds: map<nat, Owner>, sources: seq<Source>,
                           tasks: seq<Task>, phase: Phase, w: Watcher)
  {
    function Files(): map<string, string> {
      ingest.store.files
    }

    predicate Free() {
      me !in ingest.tails
    }
  }

  const NEW_WATCHER := Watcher(None, -1, None, -1, None, {})

  const DISTANT_PAST := -1

  datatype Event =
    // other programs
    | Create(name: string)
    | Grow(path: string, data: string)
    // the rest of this process, and the kernel
    | ElsewhereOpens(fd: nat)
    | ElsewhereCloses(fd: nat)
    | Fire(id: nat)
    | RunCancelHandler(id: nat)
    | DbCommit
    | OtherBegins(reader: nat, path: string)
    | TailStep(step: Step)
    | Restart
    // callers
    | CallStart
    | CallStop
    | Release(next: nat)
    // the state queue
    | BeginStart(result: Option<nat>)
    | BeginCheck
    | BeginRead
    | BeginStop
    | ScanFailed
    | Scan(names: seq<string>, plan: DrainPlan)
    | DrainOne
    | FinishScan
    | Attach(result: Option<nat>)
    | InitialRead

  function MTime(mtimes: map<string, int>): string -> int {
    path => if path in mtimes then mtimes[path] else DISTANT_PAST
  }

  /** `names` is a listing of the watched directory, in whatever order the file system gives. */
  ghost predicate Lists(s: System, names: seq<string>) {
    forall name :: name in names <==> s.dir + "/" + name in s.Files()
  }

  predicate CanOpen(s: System, result: Option<nat>) {
    result.Some? ==> result.value !in s.openFds
  }

  predicate NextTask(s: System, task: Task) {
    s.phase.Idle? && s.Free() && s.tasks != [] && s.tasks[0] == task
  }

  predicate IsTailStep(step: Step) {
    step.ReadFile? || step.EnqueueToken? || step.WriteTrace? || step.StoreCursor?
  }

  ghost predicate Enabled(s: System, e: Event) {
    match e
    case Create(name) => s.dir + "/" + name !in s.Files()
    case Grow(path, data) => path in s.Files()
    case ElsewhereOpens(fd) => fd !in s.openFds
    case ElsewhereCloses(fd) => fd in s.openFds && s.openFds[fd] == Elsewhere
    case Fire(id) => id < |s.sources| && s.sources[id].pending && !s.sources[id].closed
    case RunCancelHandler(id) => id < |s.sources| && s.sources[id].cancelled && !s.sources[id].closed
    case DbCommit => true
    case OtherBegins(reader, path) => reader != s.me && reader !in s.ingest.tails
    case TailStep(step) => IsTailStep(step) && Can(s.ingest, step)
    case Restart => true
    case CallStart => true
    case CallStop => true
    case Release(next) => next !in s.ingest.tails
    case BeginStart(result) => NextTask(s, StartTask) && CanOpen(s, result)
    case BeginCheck => NextTask(s, CheckTask)
    case BeginRead => s.phase.Idle? && s.Free() && s.tasks != [] && s.tasks[0].ReadTask?
    case BeginStop => NextTask(s, StopTask)
    case ScanFailed => s.phase.Scanning?
    case Scan(names, plan) =>
      && s.phase.Scanning? && Lists(s, names)
      && IsPlan(plan, SessionPaths(names, s.dir), s.w.watchedFile, s.w.drainedFiles, MTime(s.mtimes))
    case DrainOne => s.phase.Draining? && s.phase.todo != [] && s.Free()
    case FinishScan => s.phase.Draining? && s.phase.todo == [] && s.phase.next.None? && s.Free()
    case Attach(result) =>
      s.phase.Draining? && s.phase.todo == [] && s.phase.next.Some? && s.Free() && CanOpen(s, result)
    case InitialRead => s.phase.Reading? && s.w.watchedFile.Some? && s.Free()
  }

  // ---------------------------------------------------------------------------------------------------
  // Sources and descriptors
  // ---------------------------------------------------------------------------------------------------

  /** A kernel event reaches every source on the target whose descriptor is still open; repeats coalesce. */
  function Notify(sources: seq<Source>, target: Target): seq<Source> {
    seq(|sources|, i requires 0 <= i < |sources| =>
      if sources[i].target == target && !sources[i].closed then sources[i].(pending := true) else sources[i])
  }

  function Cancel(sources: seq<Source>, id: Option<nat>): seq<Source> {
    if id.Some? && id.value < |sources| then sources[id.value := sources[id.value].(cancelled := true)] else sources
  }

  /** `open` and `makeFileSystemObjectSource`: the descriptor belongs to the new source. */
  function AddSource(s: System, fd: nat, target: Target): System {
    s.(sources := s.sources + [Source(fd, target, false, false, false)], openFds := s.openFds[fd := Src(|s.sources|)])
  }

  function Dead(sources: seq<Source>): seq<Source> {
    seq(|sources|, i requires 0 <= i < |sources| =>
      sources[i].(pending := false, cancelled := true, closed := true))
  }

  // ---------------------------------------------------------------------------------------------------
  // The bodies of the watcher's methods
  // ---------------------------------------------------------------------------------------------------

  function StartDirectoryWatcher(s: System, result: Option<nat>): System {
    if result.None? then s
    else
      var t := AddSource(s, result.value, Directory);
      t.(w := t.w.(dirFD := result.value, dirSource := Some(|s.sources|)))
  }

  /** The first half of `startWatchingFile`: tear down, remember the path, open and create the source. */
  function AttachTo(s: System, path: string, result: Option<nat>): System {
    var t := s.(sources := Cancel(s.sources, s.w.fileSource),
                w := s.w.(fileSource := None, fileFD := -1, watchedFile := Some(path)));
    if result.None? then t
    else
      var u := AddSource(t, result.value, File(path));
      u.(w := u.w.(fileFD := result.value, fileSource := Some(|s.sources|)))
  }

  /** Both `stop` and `deinit` cancel the two sources; only `stop` goes on to clear the fields. */
  function CancelBoth(s: System): System {
    s.(sources := Cancel(Cancel(s.sources, s.w.dirSource), s.w.fileSource))
  }

  function Stop(s: System): System {
    var t := CancelBoth(s);
    t.(w := t.w.(dirSource := None, fileSource := None, fileFD := -1, dirFD := -1))
  }

  function SetMTime(s: System, path: string): System {
    s.(mtimes := s.mtimes[path := s.clock + 1], clock := s.clock + 1)
  }

  /** The steps an event makes the ingest take: none or one. */
  function StoreSteps(guarded: bool, s: System, e: Event): seq<Step>
    requires Enabled(s, e)
  {
    match e
    case Create(name) => [Append(s.dir + "/" + name, "")]
    case Grow(path, data) => [Append(path, data)]
    case DbCommit => [Commit]
    case OtherBegins(reader, path) => [Begin(reader, path)]
    case TailStep(step) => [step]
    case Restart => [Crash]
    case BeginRead =>
      if s.w.watchedFile.Some? && (guarded ==> s.w.watchedFile.value == s.tasks[0].path)
      then [Begin(s.me, s.w.watchedFile.value)] else []
    case DrainOne => [Begin(s.me, s.phase.todo[0])]
    case InitialRead => [Begin(s.me, s.w.watchedFile.value)]
    case _ => []
  }

  /** What an event does to everything but the files and the database. */
  function Around(s: System, e: Event): System
    requires Enabled(s, e)
  {
    match e
    case Create(name) => SetMTime(s, s.dir + "/" + name).(sources := Notify(s.sources, Directory))
    case Grow(path, data) => SetMTime(s, path).(sources := Notify(s.sources, File(path)))
    case ElsewhereOpens(fd) => s.(openFds := s.openFds[fd := Elsewhere])
    case ElsewhereCloses(fd) => s.(openFds := s.openFds - {fd})
    case Fire(id) =>
      var src := s.sources[id];
      s.(sources := s.sources[id := src.(pending := false)],
         tasks := s.tasks + [if src.target.File? then ReadTask(src.target.path) else CheckTask])
    case RunCancelHandler(id) =>
      s.(sources := s.sources[id := s.sources[id].(closed := true)], openFds := s.openFds - {s.sources[id].fd})
    case Restart =>
      s.(openFds := map[], sources := Dead(s.sources), tasks := [], phase := Idle, w := NEW_WATCHER)
    case CallStart => s.(tasks := s.tasks + [StartTask])
    case CallStop => s.(tasks := s.tasks + [StopTask])
    // the pane drops its watcher for a new one; a block still running goes on as that of another reader: its further
    // tails begin as that reader's, and a source it still attaches is a descriptor opened and closed elsewhere
    case Release(next) => CancelBoth(s).(me := next, tasks := [], phase := Idle, w := NEW_WATCHER)
    case BeginStart(result) => StartDirectoryWatcher(s, result).(tasks := s.tasks[1..], phase := Scanning)
    case BeginCheck => s.(tasks := s.tasks[1..], phase := Scanning)
    case BeginRead => s.(tasks := s.tasks[1..])
    case BeginStop => Stop(s).(tasks := s.tasks[1..])
    case ScanFailed => s.(phase := Idle)
    case Scan(names, plan) => s.(phase := Draining(plan.toDrain, plan.newWatched))
    // the path is remembered when its tail begins; nobody looks before the tail has ended
    case DrainOne =>
      s.(phase := Draining(s.phase.todo[1..], s.phase.next),
         w := s.w.(drainedFiles := s.w.drainedFiles + {s.phase.todo[0]}))
    case FinishScan => s.(phase := Idle)
    case Attach(result) =>
      AttachTo(s, s.phase.next.value, result).(phase := if result.Some? then Reading else Idle)
    case InitialRead => s.(phase := Idle)
    case _ => s
  }

  /** `guarded`: a file event reads only if its path is still the watched one. The earlier design read in any case. */
  function Advance(c: Codec, guarded: bool, s: System, e: Event): System
    requires Enabled(s, e)
  {
    Around(s, e).(ingest := Run(c, s.ingest, StoreSteps(guarded, s, e)))
  }

  function Next(c: Codec, s: System, e: Event): System
    requires Enabled(s, e)
  {
    Advance(c, true, s, e)
  }

  // ---------------------------------------------------------------------------------------------------
  // Runs
  // ---------------------------------------------------------------------------------------------------

  /** The states of a run: `states[0]` is the start and each event leads from one state to the next. */
  ghost predicate IsRunOf(c: Codec, guarded: bool, states: seq<System>, events: seq<Event>) {
    && |states| == |events| + 1
    && forall i :: 0 <= i < |events| ==>
         Enabled(states[i], events[i]) && states[i + 1] == Advance(c, guarded, states[i], events[i])
  }

  ghost predicate IsRun(c: Codec, states: seq<System>, events: seq<Event>) {
    IsRunOf(c, true, states, events)
  }

  /** No process yet: no sources, no descriptors of ours, an idle queue and a new watcher. */
  predicate Initial(s: System) {
    s.sources == [] && s.tasks == [] && s.phase.Idle? && s.w == NEW_WATCHER
    && forall fd <- s.openFds :: s.openFds[fd] == Elsewhere
  }

  /** A file whose time cannot be read is chosen only when none can: times that can be read are not negative. */
  lemma {:induction false} UnreadTimesComeLast(paths: seq<string>, mtimes: map<string, int>)
    requires paths != [] && forall p <- mtimes :: 0 <= mtimes[p]
    ensures Latest(paths, MTime(mtimes)) in mtimes || forall p <- paths :: p !in mtimes
  {
    LatestIsNewest(paths, MTime(mtimes));
    var latest := Latest(paths, MTime(mtimes));
    forall p | p in paths && latest !in mtimes ensures p !in mtimes
    {
      assert MTime(mtimes)(p) <= MTime(mtimes)(latest);
    }
  }

  lemma {:induction false} RunPrefix(c: Codec, guarded: bool, states: seq<System>, events: seq<Event>)
    requires IsRunOf(c, guarded, states, events) && events != []
    ensures IsRunOf(c, guarded, states[..|events|], events[..|events| - 1])
  {
  }

  // ---------------------------------------------------------------------------------------------------
  // Refinement: a watcher run is an ingest run
  // ---------------------------------------------------------------------------------------------------

  lemma {:induction false} OneStepAtMost(guarded: bool, s: System, e: Event)
    requires Enabled(s, e)
    ensures |StoreSteps(guarded, s, e)| <= 1
  {
  }

  ghost function AllStoreSteps(c: Codec, guarded: bool, states: seq<System>, events: seq<Event>): seq<Step>
    requires IsRunOf(c, guarded, states, events)
    decreases |events|
  {
    if events == [] then []
    else
      var n := |events| - 1;
      RunPrefix(c, guarded, states, events);
      AllStoreSteps(c, guarded, states[..n + 1], events[..n]) + StoreSteps(guarded, states[n], events[n])
  }

  /** Whatever the interleaving, the files and the database evolve as a run of the ingest, with or without the guard. */
  lemma {:induction false} WatcherRefinesIngest(c: Codec, guarded: bool, states: seq<System>, events: seq<Event>)
    requires IsRunOf(c, guarded, states, events)
    ensures states[|events|].ingest == Run(c, states[0].ingest, AllStoreSteps(c, guarded, states, events))
    decreases |events|
  {
    if events != [] {
      var n := |events| - 1;
      RunPrefix(c, guarded, states, events);
      WatcherRefinesIngest(c, guarded, states[..n + 1], events[..n]);
      RunAppend(c, states[0].ingest, AllStoreSteps(c, guarded, states[..n + 1], events[..n]),
                StoreSteps(guarded, states[n], events[n]));
    }
  }

  // ---------------------------------------------------------------------------------------------------
  // File events
  // ---------------------------------------------------------------------------------------------------

  /** A source for the path has fired in the run, before position `n`. */
  ghost predicate HasFired(states: seq<System>, events: seq<Event>, n: nat, path: string) {
    exists j :: 0 <= j < n && j < |events| && j < |states| && events[j].Fire? && events[j].id < |states[j].sources|
      && states[j].sources[events[j].id].target == File(path)
  }

  lemma {:induction false} NewTasksAreFired(c: Codec, guarded: bool, s: System, e: Event, path: string)
    requires Enabled(s, e) && ReadTask(path) in Advance(c, guarded, s, e).tasks
    ensures ReadTask(path) in s.tasks || (e.Fire? && s.sources[e.id].target == File(path))
  {
  }

  lemma {:induction false} TasksWereFired(c: Codec, guarded: bool, states: seq<System>, events: seq<Event>,
                                          path: string)
    requires IsRunOf(c, guarded, states, events) && states[0].tasks == []
    requires ReadTask(path) in states[|events|].tasks
    ensures HasFired(states, events, |events|, path)
    decreases |events|
  {
    var n := |events| - 1;
    RunPrefix(c, guarded, states, events);
    NewTasksAreFired(c, guarded, states[n], events[n], path);
    if ReadTask(path) in states[n].tasks {
      TasksWereFired(c, guarded, states[..n + 1], events[..n], path);
      var j :| 0 <= j < n && events[..n][j].Fire? && events[..n][j].id < |states[..n + 1][j].sources|
        && states[..n + 1][j].sources[events[..n][j].id].target == File(path);
      assert events[j].Fire? && states[j].sources[events[j].id].target == File(path);
    }
  }

  /**
   In every run, a file event that reaches the state queue comes from a source that was made for one path and has
   fired. What it begins is a tail of that path, if it is still watched, or nothing; never a tail of another file.
   */
  lemma {:induction false} EventsReadTheirOwnFile(c: Codec, states: seq<System>, events: seq<Event>, n: nat)
    requires IsRun(c, states, events) && states[0].tasks == [] && n < |events| && events[n] == BeginRead
    ensures exists path ::
      && HasFired(states, events, n, path)
      && states[n + 1].ingest
           == if states[n].w.watchedFile == Some(path) then Exec(c, states[n].ingest, Begin(states[n].me, path))
              else states[n].ingest
  {
    assert Enabled(states[n], events[n]);
    var path := states[n].tasks[0].path;
    assert ReadTask(path) in states[n].tasks;
    var before, sofar := states[..n + 1], events[..n];
    assert IsRun(c, before, sofar);
    TasksWereFired(c, true, before, sofar, path);
    var j :| 0 <= j < n && sofar[j].Fire? && sofar[j].id < |before[j].sources|
      && before[j].sources[sofar[j].id].target == File(path);
    assert events[j].Fire? && states[j].sources[events[j].id].target == File(path);
    assert HasFired(states, events, n, path);
    RunOne(c, states[n].ingest, Begin(states[n].me, path));
  }

  /** No other reader, and the watcher is dropped only between two tails. */
  predicate OneReader(s: System, e: Event) {
    !e.OtherBegins? && (e.Release? ==> s.Free())
  }

  ghost predicate OnlyMe(s: System) {
    forall k <- s.ingest.tails :: k == s.me
  }

  lemma {:induction false} OnlyMeStep(c: Codec, guarded: bool, s: System, e: Event, path: string)
    requires Enabled(s, e) && OneReader(s, e) && OnlyMe(s)
    ensures OnlyMe(Advance(c, guarded, s, e))
    ensures Overlaps(c, s.ingest, StoreSteps(guarded, s, e), path) == 0
  {
    var steps := StoreSteps(guarded, s, e);
    OneStepAtMost(guarded, s, e);
    if steps != [] {
      assert steps == [steps[0]];
      RunOne(c, s.ingest, steps[0]);
      OneOverlap(c, s.ingest, steps[0], path);
    }
  }

  /**
   One watcher never overlaps its own tails, so it records a row once and once more per harmful crash, and that
   with or without the guard on file events: an event that reads the wrong file reads it from its cursor.
   */
  lemma {:induction false} OneWatcherRecordsOnce(c: Codec, guarded: bool, states: seq<System>, events: seq<Event>,
                                                 r: Row)
    requires !c.usage("") && IsRunOf(c, guarded, states, events) && Fresh(states[0].ingest)
    requires forall i :: 0 <= i < |events| ==> OneReader(states[i], events[i])
    ensures var steps := AllStoreSteps(c, guarded, states, events);
      && Overlaps(c, states[0].ingest, steps, r.path) == 0
      && Copies(states[|events|].ingest.store.db, r) <= 1 + HarmfulCrashes(c, states[0].ingest, steps, r.path)
  {
    NeverOverlaps(c, guarded, states, events, r.path);
    WatcherRefinesIngest(c, guarded, states, events);
    DuplicationIsBounded(c, states[0].ingest, AllStoreSteps(c, guarded, states, events), r);
  }

  lemma {:induction false} NeverOverlaps(c: Codec, guarded: bool, states: seq<System>, events: seq<Event>, path: string)
    requires IsRunOf(c, guarded, states, events) && OnlyMe(states[0])
    requires forall i :: 0 <= i < |events| ==> OneReader(states[i], events[i])
    ensures OnlyMe(states[|events|])
    ensures Overlaps(c, states[0].ingest, AllStoreSteps(c, guarded, states, events), path) == 0
    decreases |events|
  {
    if events != [] {
      var n := |events| - 1;
      RunPrefix(c, guarded, states, events);
      assert forall i :: 0 <= i < n ==> states[..n + 1][i] == states[i] && events[..n][i] == events[i];
      NeverOverlaps(c, guarded, states[..n + 1], events[..n], path);
      WatcherRefinesIngest(c, guarded, states[..n + 1], events[..n]);
      OnlyMeStep(c, guarded, states[n], events[n], path);
      OverlapsAppend(c, states[0].ingest, AllStoreSteps(c, guarded, states[..n + 1], events[..n]),
                     StoreSteps(guarded, states[n], events[n]), path);
    }
  }

  // ---------------------------------------------------------------------------------------------------
  // Descriptors
  // ---------------------------------------------------------------------------------------------------

  /** Every source whose cancel handler has not run still owns the descriptor it was made with. */
  predicate Owned(s: System) {
    forall i :: 0 <= i < |s.sources| && !s.sources[i].closed ==>
      s.sources[i].fd in s.openFds && s.openFds[s.sources[i].fd] == Src(i)
  }

  lemma {:induction false} OwnedStep(c: Codec, s: System, e: Event)
    requires Enabled(s, e) && Owned(s)
    ensures Owned(Next(c, s, e))
  {
    var t := Next(c, s, e);
    forall i | 0 <= i < |t.sources| && !t.sources[i].closed
      ensures t.sources[i].fd in t.openFds && t.openFds[t.sources[i].fd] == Src(i)
    {
      if i < |s.sources| {
        assert !s.sources[i].closed;
      }
    }
  }

  /** In every run, whoever opens or closes descriptors and whenever the cancel handlers get to run. */
  lemma {:induction false} DescriptorsAreOwned(c: Codec, states: seq<System>, events: seq<Event>)
    requires IsRun(c, states, events) && Owned(states[0])
    ensures forall i :: 0 <= i < |states| ==> Owned(states[i])
    decreases |events|
  {
    if events != [] {
      var n := |events| - 1;
      RunPrefix(c, true, states, events);
      DescriptorsAreOwned(c, states[..n + 1], events[..n]);
      assert states[..n + 1][n] == states[n];
      OwnedStep(c, states[n], events[n]);
      assert forall i :: 0 <= i < n + 1 ==> states[..n + 1][i] == states[i];
    }
  }

  /** Only a source's own handler closes its descriptor, and only once. */
  lemma {:induction false} OnlyTheOwnerCloses(c: Codec, s: System, e: Event, i: nat)
    requires Enabled(s, e) && Owned(s) && i < |s.sources| && !s.sources[i].closed && !e.Restart?
    ensures var t := Next(c, s, e);
      && i < |t.sources| && t.sources[i].fd == s.sources[i].fd
      && (t.sources[i].closed <==> e == RunCancelHandler(i))
      && (s.sources[i].fd !in t.openFds <==> e == RunCancelHandler(i))
  {
    OwnedStep(c, s, e);
  }

  /** The earlier design: the cancel handler closes whatever descriptor the property holds when it runs. */
  function RunOldCancelHandler(s: System, id: nat): System
    requires id < |s.sources|
  {
    var fds := if s.w.fileFD >= 0 then s.openFds - {s.w.fileFD} else s.openFds;
    s.(sources := s.sources[id := s.sources[id].(closed := true)], openFds := fds)
  }

  /**
   The earlier handler keeps descriptor ownership if and only if the property does not hold the descriptor of
   another open source. That is what it holds as soon as the next file has been attached before the handler ran.
   */
  lemma {:induction false} OldHandlerIsSafeExactly(s: System, id: nat)
    requires Owned(s) && id < |s.sources| && s.sources[id].cancelled && !s.sources[id].closed
    ensures Owned(RunOldCancelHandler(s, id)) <==>
      forall j :: 0 <= j < |s.sources| && j != id && !s.sources[j].closed ==> s.sources[j].fd != s.w.fileFD
  {
    var t := RunOldCancelHandler(s, id);
    if j :| 0 <= j < |s.sources| && j != id && !s.sources[j].closed && s.sources[j].fd == s.w.fileFD {
      assert t.sources[j] == s.sources[j];
    } else {
      forall i | 0 <= i < |t.sources| && !t.sources[i].closed
        ensures t.sources[i].fd in t.openFds && t.openFds[t.sources[i].fd] == Src(i)
      {
        assert t.sources[i] == s.sources[i];
      }
    }
  }

  /** A rotation is enough: attach the next file while the previous source is still open, then run its handler. */
  lemma {:induction false} OldHandlerClosesTheNewFile(c: Codec, s: System, fd: nat)
    requires Enabled(s, Attach(Some(fd))) && Owned(s)
    requires s.w.fileSource.Some? && s.w.fileSource.value < |s.sources| && !s.sources[s.w.fileSource.value].closed
    ensures
      var t, prior := Next(c, s, Attach(Some(fd))), s.w.fileSource.value;
      && Enabled(t, RunCancelHandler(prior))
      && Owned(Next(c, t, RunCancelHandler(prior)))
      && !Owned(RunOldCancelHandler(t, prior))
  {
    var t, prior := Next(c, s, Attach(Some(fd))), s.w.fileSource.value;
    OwnedStep(c, s, Attach(Some(fd)));
    OwnedStep(c, t, RunCancelHandler(prior));
    OldHandlerIsSafeExactly(t, prior);
    assert t.sources[|s.sources|].fd == fd && t.w.fileFD == fd;
  }
}
