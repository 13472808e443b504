/** Runs of the session watcher that exist. */
module WatcherRuns {
  // It settles after every first launch, and a session that is resumed can lose its last lines.

  import opened Options
  import opened SessionLines
  import opened SessionIngest
  import opened SessionBlocks
  import opened WatcherPlan
  import opened WatcherSystem
  import opened WatcherCompleteness
  import opened SessionWatcher

  // ---------------------------------------------------------------------------------------------------
  // There is always a plan
  // ---------------------------------------------------------------------------------------------------

  /** The paths in order, without those in `skip`. */
  function SortedWithout(paths: seq<string>, skip: set<string>): seq<string> {
    if paths == [] then []
    else
      var rest := SortedWithout(paths[1..], skip);
      if paths[0] in skip then rest else Insert(paths[0], rest)
  }

  lemma {:induction false} SortedWithoutIsSorted(paths: seq<string>, skip: set<string>)
    ensures Sorted(SortedWithout(paths, skip))
    ensures forall p :: p in SortedWithout(paths, skip) <==> p in paths && p !in skip
  {
    if paths != [] {
      SortedWithoutIsSorted(paths[1..], skip);
      InsertSorted(paths[0], SortedWithout(paths[1..], skip));
      assert paths == [paths[0]] + paths[1..];
    }
  }

  lemma {:induction false} PlanExists(s: System, names: seq<string>) returns (plan: DrainPlan)
    ensures PlansScan(s, names, plan)
  {
    var paths := SessionPaths(names, s.dir);
    if paths == [] {
      return DrainPlan([], None);
    }
    var latest, watched := Latest(paths, MTime(s.mtimes)), s.w.watchedFile;
    var all := if watched.Some? then paths + [watched.value] else paths;
    SortedWithoutIsSorted(all, s.w.drainedFiles + {latest});
    plan := DrainPlan(SortedWithout(all, s.w.drainedFiles + {latest}),
                      if watched == Some(latest) then None else Some(latest));
  }

  // ---------------------------------------------------------------------------------------------------
  // A scan that rotates
  // ---------------------------------------------------------------------------------------------------

  /** The two live sources are the only open ones, and every descriptor is below the number of sources. */
  predicate OnlyTwoOpen(s: System) {
    && SourcesLive(s)
    && (forall i :: 0 <= i < |s.sources| && !s.sources[i].closed ==>
          s.w.dirSource == Some(i) || s.w.fileSource == Some(i))
    && (forall fd <- s.openFds :: fd < |s.sources|)
  }

  predicate DirDue(s: System) {
    s.w.dirSource.Some? && s.w.dirSource.value < |s.sources| && s.sources[s.w.dirSource.value].pending
  }

  predicate Watches(s: System, path: string) {
    s.phase.Idle? && s.Free() && s.tasks == [] && OnlyTwoOpen(s) && s.w.watchedFile == Some(path)
  }

  /** The same files at the same times. */
  predicate SameFiles(s: System, t: System) {
    t.dir == s.dir && t.me == s.me && t.Files() == s.Files() && t.mtimes == s.mtimes && t.clock == s.clock
  }

  /** Everything but the database after a scan has turned to a new file, opened with the next free descriptor. */
  predicate Turned(s: System, t: System, path: string, drained: set<string>) {
    var fd := |s.sources|;
    && SameFiles(s, t) && t.tasks == s.tasks && t.ingest.tails == s.ingest.tails
    && t.sources == Cancel(s.sources, s.w.fileSource) + [Source(fd, File(path), false, false, false)]
    && t.openFds == s.openFds[fd := Src(fd)]
    && t.w == Watcher(s.w.dirSource, s.w.dirFD, Some(fd), fd, Some(path), s.w.drainedFiles + drained)
  }

  lemma {:induction false} PlanOutcome(c: Codec, s: System, plan: DrainPlan, path: string)
    requires plan.newWatched == Some(path)
    ensures Turned(s, RunPlan(c, s, plan, Some(|s.sources|)), path, set p <- plan.toDrain)
  {
    var fd := |s.sources|;
    DrainAllKeeps(c, s, plan.toDrain, Idle);
    var t := AttachTo(DrainAll(c, s, plan.toDrain), path, Some(fd));
    TailedView(c, t.ingest.store, path);
  }

  /** The handler of the source left behind, if there was one, closes its descriptor. */
  lemma {:induction false} OldSourceCloses(c: Codec, late: Option<set<string>>, s0: System, s: System, u: System,
                                           path: string, drained: set<string>) returns (t: System)
    requires Reaches(c, late, s0, u) && u.phase.Idle? && s.Free() && s.tasks == [] && OnlyTwoOpen(s) && !DirDue(s)
    requires Turned(s, u, path, drained)
    ensures Reaches(c, late, s0, t) && SameFiles(s, t) && t.ingest == u.ingest && t.w == u.w
    ensures Watches(t, path) && Quiescent(t)
  {
    assert u.Free();
    if s.w.fileSource.None? {
      t := u;
    } else {
      var k := s.w.fileSource.value;
      assert u.sources[k] == s.sources[k].(cancelled := true);
      ReachesNext(c, late, s0, u, RunCancelHandler(k));
      t := Next(c, u, RunCancelHandler(k));
    }
  }

  /** The rest of a scan: drain, attach, read, and the handler of the source left behind. */
  lemma {:induction false} ScanSettles(c: Codec, late: Option<set<string>>, s0: System, s: System, names: seq<string>,
                                       plan: DrainPlan, path: string) returns (t: System)
    requires c.Sound() && StoreInv(c, s.ingest) && Reaches(c, late, s0, s)
    requires s.phase.Scanning? && s.Free() && s.tasks == [] && OnlyTwoOpen(s) && !DirDue(s)
    requires Lists(s, names) && PlansScan(s, names, plan) && plan.newWatched == Some(path)
    ensures Reaches(c, late, s0, t) && SameFiles(s, t) && StoreInv(c, t.ingest)
    ensures Watches(t, path) && Quiescent(t) && t.w.drainedFiles == s.w.drainedFiles + set p <- plan.toDrain
    ensures forall p :: FullyRead(t.ingest.store, p) <==> p in plan.toDrain || p == path || FullyRead(s.ingest.store, p)
  {
    var fd := |s.sources|;
    var u := RunPlan(c, s, plan, Some(fd)).(phase := Idle);
    ScanReaches(c, late, s0, s, names, plan, Some(fd));
    PlanOutcome(c, s, plan, path);
    ScanReads(c, s, plan, Some(fd), path);
    forall p
      ensures FullyRead(u.ingest.store, p) <==> p in plan.toDrain || p == path || FullyRead(s.ingest.store, p)
    {
      ScanReads(c, s, plan, Some(fd), p);
    }
    t := OldSourceCloses(c, late, s0, s, u, path, set p <- plan.toDrain);
  }

  /** A directory event is taken up and its scan turns to a new file. */
  lemma {:induction false} Rotates(c: Codec, late: Option<set<string>>, s0: System, s: System, names: seq<string>,
                                   plan: DrainPlan, path: string) returns (t: System)
    requires c.Sound() && StoreInv(c, s.ingest) && Reaches(c, late, s0, s)
    requires s.w.watchedFile.Some? && Watches(s, s.w.watchedFile.value) && DirDue(s)
    requires Lists(s, names) && PlansScan(s, names, plan) && plan.newWatched == Some(path)
    ensures Reaches(c, late, s0, t) && SameFiles(s, t) && StoreInv(c, t.ingest)
    ensures Watches(t, path) && Quiescent(t) && t.w.drainedFiles == s.w.drainedFiles + set p <- plan.toDrain
    ensures forall p :: FullyRead(t.ingest.store, p) <==> p in plan.toDrain || p == path || FullyRead(s.ingest.store, p)
  {
    TakesUp(c, late, s0, s);
    t := ScanSettles(c, late, s0, TakenUp(s), names, plan, path);
  }

  /** The directory event has been handled as far as the scan it asks for. */
  function TakenUp(s: System): System
    requires DirDue(s)
  {
    var id := s.w.dirSource.value;
    s.(sources := s.sources[id := s.sources[id].(pending := false)], tasks := [], phase := Scanning)
  }

  lemma {:induction false} TakesUp(c: Codec, late: Option<set<string>>, s0: System, s: System)
    requires Reaches(c, late, s0, s) && s.w.watchedFile.Some? && Watches(s, s.w.watchedFile.value) && DirDue(s)
    ensures var t := TakenUp(s);
      Reaches(c, late, s0, t) && OnlyTwoOpen(t) && !DirDue(t) && SameFiles(s, t) && t.w == s.w
  {
    var id := s.w.dirSource.value;
    var fired := Next(c, s, Fire(id));
    ReachesNext(c, late, s0, s, Fire(id));
    assert fired == s.(sources := s.sources[id := s.sources[id].(pending := false)], tasks := [CheckTask]);
    ReachesNext(c, late, s0, fired, BeginCheck);
    assert Next(c, fired, BeginCheck) == TakenUp(s);
    TakenUpIsOpen(s);
  }

  lemma {:induction false} TakenUpIsOpen(s: System)
    requires OnlyTwoOpen(s) && DirDue(s)
    ensures var t := TakenUp(s); OnlyTwoOpen(t) && !DirDue(t) && SameFiles(s, t) && t.w == s.w
  {
  }

  // ---------------------------------------------------------------------------------------------------
  // A start settles
  // ---------------------------------------------------------------------------------------------------

  /** The newest file of a listing that shows a session. */
  lemma {:induction false} NewestOf(s: System, names: seq<string>, plan: DrainPlan, path: string)
    requires DistinctTimes(s) && Lists(s, names) && PlansScan(s, names, plan) && Session(s.dir, s.Files(), path)
    ensures plan.newWatched.Some? || s.w.watchedFile.Some?
    ensures IsNewest(s, path) && s.w.watchedFile != Some(path) ==> plan.newWatched == Some(path)
    ensures !IsNewest(s, path) ==> (path in plan.toDrain <==> path !in s.w.drainedFiles)
    ensures s.w.watchedFile.None? ==> IsNewest(s, plan.newWatched.value)
  {
    LatestOfListing(s, names);
    var paths := SessionPaths(names, s.dir);
    assert path in paths;
    assert IsNewest(s, Latest(paths, MTime(s.mtimes)));
  }

  /** From the first launch, with any session files there: start, scan, drain all but the newest and watch that one. */
  lemma {:induction false} StartSettles(c: Codec, late: Option<set<string>>, s: System, names: seq<string>,
                                        path: string)
                                        returns (t: System)
    requires c.Sound() && FirstLaunch(c, s) && s.openFds == map[] && Lists(s, names)
    requires IsNewest(s, path)
    ensures Reaches(c, late, s, t) && SameFiles(s, t) && StoreInv(c, t.ingest) && Watches(t, path) && Quiescent(t)
    ensures forall p :: Session(s.dir, s.Files(), p) ==> FullyRead(t.ingest.store, p)
    ensures forall p :: Session(s.dir, s.Files(), p) && p != path ==> p in t.w.drainedFiles
  {
    FirstLaunchInv(c, ToTheEnd, s);
    StartReaches(c, late, s);
    var begun := Listing(s);
    assert DistinctTimes(begun) && IsNewest(begun, path) && Lists(begun, names);
    var plan := PlanExists(begun, names);
    forall p | Session(s.dir, s.Files(), p) ensures p == path || p in plan.toDrain
    {
      NewestOf(begun, names, plan, p);
      assert IsNewest(begun, p) ==> p == path;
    }
    NewestOf(begun, names, plan, path);
    t := ScanSettles(c, late, s, begun, names, plan, path);
  }

  /** A watcher that has opened the directory and is about to list it. */
  function Listing(s: System): System {
    s.(tasks := [], phase := Scanning, openFds := map[0 := Src(0)],
       sources := [Source(0, Directory, false, false, false)], w := NEW_WATCHER.(dirFD := 0, dirSource := Some(0)))
  }

  lemma {:induction false} StartReaches(c: Codec, late: Option<set<string>>, s: System)
    requires FirstLaunch(c, s) && s.openFds == map[]
    ensures Reaches(c, late, s, Listing(s))
  {
    ReachesSelf(c, late, s);
    var called := Next(c, s, CallStart);
    ReachesNext(c, late, s, s, CallStart);
    assert called == s.(tasks := [StartTask]);
    StartOpens(c, s);
    ReachesNext(c, late, s, called, BeginStart(Some(0)));
  }

  lemma {:induction false} StartOpens(c: Codec, s: System)
    requires s.sources == [] && s.openFds == map[] && s.phase.Idle? && s.Free() && s.w == NEW_WATCHER
    ensures var called := s.(tasks := [StartTask]);
      Enabled(called, BeginStart(Some(0))) && Next(c, called, BeginStart(Some(0))) == Listing(s)
  {
  }

  /** Settled states are reached: by a start, from every first launch that finds a newest session file. */
  lemma {:induction false} SettledRunsExist(c: Codec, s: System, names: seq<string>, path: string)
                                            returns (states: seq<System>, events: seq<Event>)
    requires c.Sound() && FirstLaunch(c, s) && s.openFds == map[] && Lists(s, names) && IsNewest(s, path)
    ensures DisciplinedRun(c, ToTheEnd, states, events) && states[0] == s
    ensures var t := states[|events|]; Started(t) && Quiescent(t) && t.w.watchedFile == Some(path)
  {
    var t := StartSettles(c, Some({}), s, names, path);
    states, events :| AllowedRun(c, Some({}), states, events) && states[0] == s && states[|events|] == t;
    forall i | 0 <= i < |events| ensures Disciplined(c, ToTheEnd, states[i], events[i])
    {
      assert Allowed(c, Some({}), states[i], events[i]);
    }
  }

  // ---------------------------------------------------------------------------------------------------
  // A resumed session
  // ---------------------------------------------------------------------------------------------------

  /** A touched file is the newest session, if it is one. */
  lemma {:induction false} Touches(c: Codec, s: System, e: Event, path: string)
    requires c.Sound() && Enabled(s, e) && DistinctTimes(s) && StoreInv(c, s.ingest)
    requires (e.Create? && path == s.dir + "/" + e.name) || (e.Grow? && path == e.path && c.decodes(e.data))
    ensures var t := Next(c, s, e);
      && DistinctTimes(t) && StoreInv(c, t.ingest) && (SessionPath(t.dir, path) ==> IsNewest(t, path))
      && t.dir == s.dir && t.w == s.w && t.Files().Keys == s.Files().Keys + {path}
  {
    var t, data := Next(c, s, e), if e.Grow? then e.data else "";
    DistinctTimesStep(c, s, e);
    RunOne(c, s.ingest, Append(path, data));
    StoreInvStep(c, s.ingest, Append(path, data));
    assert forall p :: p != path ==> MTime(t.mtimes)(p) == MTime(s.mtimes)(p);
    assert forall p :: p != path && Session(t.dir, t.Files(), p) ==> Session(s.dir, s.Files(), p);
  }

  lemma {:induction false} TouchKeepsWatching(c: Codec, s: System, e: Event, watched: string)
    requires Enabled(s, e) && (e.Create? || e.Grow?) && Watches(s, watched)
    ensures var t := Next(c, s, e);
      && Watches(t, watched) && (e.Create? || DirDue(s) ==> DirDue(t))
  {
    var t, steps := Next(c, s, e), StoreSteps(true, s, e);
    assert steps == [steps[0]];
    RunOne(c, s.ingest, steps[0]);
    assert t.ingest.tails == s.ingest.tails;
    assert forall i :: 0 <= i < |s.sources| ==> t.sources[i] == s.sources[i].(pending := t.sources[i].pending);
  }

  lemma {:induction false} ListsMore(c: Codec, s: System, names: seq<string>, name: string)
    requires Lists(s, names) && Enabled(s, Create(name))
    ensures Lists(Next(c, s, Create(name)), names + [name])
  {
    var t, path := Next(c, s, Create(name)), s.dir + "/" + name;
    RunOne(c, s.ingest, Append(path, ""));
    forall other ensures other in names + [name] <==> t.dir + "/" + other in t.Files()
    {
      if s.dir + "/" + other == path {
        assert (s.dir + "/" + other)[|s.dir| + 1..] == other && path[|s.dir| + 1..] == name;
      }
    }
  }

  /** A touch reads nothing, and text written to a file that was read leaves it unread. */
  lemma {:induction false} TouchReads(c: Codec, s: System, e: Event, path: string, data: string, p: string)
    requires Enabled(s, e) && (e == Grow(path, data) || (e.Create? && path == s.dir + "/" + e.name && data == ""))
    ensures var t := Next(c, s, e);
      && (p != path ==> (FullyRead(t.ingest.store, p) <==> FullyRead(s.ingest.store, p)))
      && (FullyRead(s.ingest.store, path) && data != "" ==> !FullyRead(t.ingest.store, path))
  {
    RunOne(c, s.ingest, Append(path, data));
    ViewAfter(c, s.ingest, Append(path, data));
  }

  /** A file appears in the directory, which notices. */
  lemma {:induction false} Appears(c: Codec, late: Option<set<string>>, s0: System, s: System, names: seq<string>,
                                   watched: string, name: string) returns (t: System)
    requires c.Sound() && StoreInv(c, s.ingest) && DistinctTimes(s) && Reaches(c, late, s0, s)
    requires Lists(s, names) && Watches(s, watched) && s.dir + "/" + name !in s.Files()
    ensures Reaches(c, late, s0, t) && StoreInv(c, t.ingest) && DistinctTimes(t) && Lists(t, names + [name])
    ensures Watches(t, watched) && DirDue(t) && t.w == s.w && t.dir == s.dir
    ensures t.Files().Keys == s.Files().Keys + {s.dir + "/" + name}
    ensures IsSession(name) ==> IsNewest(t, s.dir + "/" + name)
    ensures forall p <- s.Files() :: FullyRead(t.ingest.store, p) <==> FullyRead(s.ingest.store, p)
  {
    var e, path := Create(name), s.dir + "/" + name;
    Touches(c, s, e, path);
    TouchKeepsWatching(c, s, e, watched);
    ListsMore(c, s, names, name);
    ReachesNext(c, late, s0, s, e);
    t := Next(c, s, e);
    forall p | p in s.Files() ensures FullyRead(t.ingest.store, p) <==> FullyRead(s.ingest.store, p)
    {
      TouchReads(c, s, e, path, "", p);
    }
  }

  /** A session file is written to, and is the newest from then on. */
  lemma {:induction false} Grows(c: Codec, late: Option<set<string>>, s0: System, s: System, names: seq<string>,
                                 watched: string, path: string, data: string) returns (t: System)
    requires c.Sound() && c.decodes(data) && StoreInv(c, s.ingest) && DistinctTimes(s) && Reaches(c, late, s0, s)
    requires Lists(s, names) && Watches(s, watched) && Session(s.dir, s.Files(), path)
    requires late.Some? ==> path in late.value
    ensures Reaches(c, late, s0, t) && StoreInv(c, t.ingest) && DistinctTimes(t) && Lists(t, names)
    ensures Watches(t, watched) && (DirDue(s) ==> DirDue(t)) && t.w == s.w && t.dir == s.dir
    ensures t.Files().Keys == s.Files().Keys && IsNewest(t, path)
    ensures FullyRead(s.ingest.store, path) && data != "" ==> !FullyRead(t.ingest.store, path)
  {
    var e := Grow(path, data);
    Touches(c, s, e, path);
    TouchKeepsWatching(c, s, e, watched);
    TouchReads(c, s, e, path, data, path);
    ReachesNext(c, late, s0, s, e);
    t := Next(c, s, e);
  }

  /** A scan that finds another file to be the newest turns to it, and does not look at what was drained before. */
  lemma {:induction false} TurnsToNewest(c: Codec, late: Option<set<string>>, s0: System, s: System, names: seq<string>,
                                         path: string) returns (t: System)
    requires c.Sound() && StoreInv(c, s.ingest) && DistinctTimes(s) && Reaches(c, late, s0, s) && Lists(s, names)
    requires s.w.watchedFile.Some? && Watches(s, s.w.watchedFile.value) && DirDue(s)
    requires IsNewest(s, path) && s.w.watchedFile != Some(path)
    ensures Reaches(c, late, s0, t) && SameFiles(s, t) && StoreInv(c, t.ingest) && Watches(t, path) && Quiescent(t)
    ensures s.w.drainedFiles <= t.w.drainedFiles && FullyRead(t.ingest.store, path)
    ensures forall p <- s.w.drainedFiles :: p != path ==>
      (FullyRead(t.ingest.store, p) <==> FullyRead(s.ingest.store, p))
  {
    var plan := PlanExists(s, names);
    NewestOf(s, names, plan, path);
    t := Rotates(c, late, s0, s, names, plan, path);
  }

  /** A new file appears, so that the directory is scanned, and a session left behind before is written to again. */
  lemma {:induction false} Resumes(c: Codec, s0: System, s: System, names: seq<string>, newest: string, resumed: string,
                                   name: string, x: string) returns (t: System)
    requires c.Sound() && c.decodes(x) && StoreInv(c, s.ingest) && DistinctTimes(s)
    requires Reaches(c, Some({resumed}), s0, s) && Lists(s, names)
    requires Watches(s, newest) && resumed in s.w.drainedFiles && resumed != newest
    requires Session(s.dir, s.Files(), resumed) && s.dir + "/" + name !in s.Files()
    ensures Reaches(c, Some({resumed}), s0, t) && StoreInv(c, t.ingest) && DistinctTimes(t) && Lists(t, names + [name])
    ensures Watches(t, newest) && DirDue(t) && IsNewest(t, resumed) && t.w == s.w && t.dir == s.dir
    ensures t.Files().Keys == s.Files().Keys + {s.dir + "/" + name}
  {
    var u := Appears(c, Some({resumed}), s0, s, names, newest, name);
    t := Grows(c, Some({resumed}), s0, u, names + [name], newest, resumed, x);
  }

  /** The watched session is written to and another one begins before its event is handled. */
  lemma {:induction false} WrittenAndLeft(c: Codec, s0: System, s: System, names: seq<string>, resumed: string,
                                          name: string, y: string) returns (t: System)
    requires c.Sound() && c.decodes(y) && y != "" && StoreInv(c, s.ingest) && DistinctTimes(s)
    requires Reaches(c, Some({resumed}), s0, s) && Lists(s, names)
    requires Watches(s, resumed) && FullyRead(s.ingest.store, resumed)
    requires Session(s.dir, s.Files(), resumed) && s.dir + "/" + name !in s.Files() && IsSession(name)
    ensures Reaches(c, Some({resumed}), s0, t) && StoreInv(c, t.ingest) && DistinctTimes(t) && Lists(t, names + [name])
    ensures Watches(t, resumed) && DirDue(t) && IsNewest(t, t.dir + "/" + name) && t.w == s.w
    ensures Session(t.dir, t.Files(), resumed) && t.dir == s.dir && !FullyRead(t.ingest.store, resumed)
  {
    var u := Grows(c, Some({resumed}), s0, s, names, resumed, resumed, y);
    t := Appears(c, Some({resumed}), s0, u, names, resumed, name);
  }

  /**
   A session that is left, resumed and left again can lose what was written last. From every first launch with two
   session files at least there is an orderly run - every open succeeds, the one late write is the one that resumes
   the session - after which the watcher has settled on the newest file, and the resumed session is not read to its end.
   */
  lemma {:induction false} ResumedSessionIsLost(c: Codec, s: System, names: seq<string>, newest: string,
                                                resumed: string, first: string, second: string, x: string, y: string)
                                                returns (states: seq<System>, events: seq<Event>)
    requires c.Sound() && c.decodes(x) && c.decodes(y) && y != ""
    requires FirstLaunch(c, s) && s.openFds == map[] && Lists(s, names)
    requires IsNewest(s, newest) && Session(s.dir, s.Files(), resumed) && resumed != newest
    requires s.dir + "/" + first !in s.Files() && s.dir + "/" + second !in s.Files() && first != second
    requires IsSession(second)
    ensures AllowedRun(c, Some({resumed}), states, events) && states[0] == s
    ensures var t := states[|events|];
      && Started(t) && Quiescent(t) && t.w.watchedFile == Some(t.dir + "/" + second)
      && Session(t.dir, t.Files(), resumed) && !FullyRead(t.ingest.store, resumed)
  {
    var late, more := Some({resumed}), names + [first];
    var back := LeftAndResumed(c, s, names, newest, resumed, first, x);
    NewName(s.dir, first, second);
    var left := WrittenAndLeft(c, s, back, more, resumed, second, y);
    var final := TurnsToNewest(c, late, s, left, more + [second], left.dir + "/" + second);
    states, events :| AllowedRun(c, late, states, events) && states[0] == s && states[|events|] == final;
  }

  /** From the first launch to a session that was drained, left behind and resumed, and is watched again. */
  lemma {:induction false} LeftAndResumed(c: Codec, s: System, names: seq<string>, newest: string, resumed: string,
                                          first: string, x: string) returns (back: System)
    requires c.Sound() && c.decodes(x) && FirstLaunch(c, s) && s.openFds == map[] && Lists(s, names)
    requires IsNewest(s, newest) && Session(s.dir, s.Files(), resumed) && resumed != newest
    requires s.dir + "/" + first !in s.Files()
    ensures Reaches(c, Some({resumed}), s, back) && StoreInv(c, back.ingest) && DistinctTimes(back)
    ensures Lists(back, names + [first]) && back.dir == s.dir && Watches(back, resumed)
    ensures Session(back.dir, back.Files(), resumed) && resumed in back.w.drainedFiles
    ensures FullyRead(back.ingest.store, resumed) && back.Files().Keys == s.Files().Keys + {s.dir + "/" + first}
  {
    var late := Some({resumed});
    var t := StartSettles(c, late, s, names, newest);
    var due := Resumes(c, s, t, names, newest, resumed, first, x);
    back := TurnsToNewest(c, late, s, due, names + [first], resumed);
    SameTimes(due, back, names + [first], resumed);
  }

  lemma {:induction false} SameTimes(s: System, t: System, names: seq<string>, path: string)
    requires SameFiles(s, t)
    ensures DistinctTimes(s) ==> DistinctTimes(t)
    ensures Lists(s, names) ==> Lists(t, names)
    ensures Session(s.dir, s.Files(), path) ==> Session(t.dir, t.Files(), path)
  {
  }

  lemma {:induction false} NewName(dir: string, a: string, b: string)
    requires a != b
    ensures dir + "/" + a != dir + "/" + b
  {
    assert (dir + "/" + a)[|dir| + 1..] == a && (dir + "/" + b)[|dir| + 1..] == b;
  }

  // ---------------------------------------------------------------------------------------------------
  // The earlier cancel handler
  // ---------------------------------------------------------------------------------------------------

  /**
   The earlier design closes the descriptor of the file just attached: from every first launch, as soon as one new
   session has appeared and been turned to and the handler of the source left behind gets to run. The present handler
   closes its own.
   */
  lemma {:induction false} OldHandlerClosesInARun(c: Codec, s: System, names: seq<string>, newest: string, name: string)
                                                  returns (states: seq<System>, events: seq<Event>, prior: nat)
    requires c.Sound() && FirstLaunch(c, s) && s.openFds == map[] && Lists(s, names) && IsNewest(s, newest)
    requires IsSession(name) && s.dir + "/" + name !in s.Files()
    ensures AllowedRun(c, Some({}), states, events) && states[0] == s
    ensures var t := states[|events|];
      && t.w.watchedFile == Some(t.dir + "/" + name) && Enabled(t, RunCancelHandler(prior))
      && t.sources[prior].target == File(newest)
      && Owned(Next(c, t, RunCancelHandler(prior)))
      && !Owned(RunOldCancelHandler(t, prior))
  {
    var path := s.dir + "/" + name;
    var scanning, u, drained := JustTurned(c, s, names, newest, name);
    states, events :| AllowedRun(c, Some({}), states, events) && states[0] == s && states[|events|] == u;
    DescriptorsAreOwned(c, states, events);
    prior := scanning.w.fileSource.value;
    PropertyNamesTheNew(c, scanning, u, path, drained);
  }

  /** A new session has appeared and been turned to; the handler of the source left behind has not run. */
  lemma {:induction false} JustTurned(c: Codec, s: System, names: seq<string>, newest: string, name: string)
                                      returns (scanning: System, u: System, drained: set<string>)
    requires c.Sound() && FirstLaunch(c, s) && s.openFds == map[] && Lists(s, names) && IsNewest(s, newest)
    requires IsSession(name) && s.dir + "/" + name !in s.Files()
    ensures Reaches(c, Some({}), s, u) && u.dir == s.dir
    ensures OnlyTwoOpen(scanning) && scanning.w.watchedFile == Some(newest)
    ensures Turned(scanning, u, s.dir + "/" + name, drained)
  {
    var late := Some({});
    var t := StartSettles(c, late, s, names, newest);
    SameTimes(s, t, names, newest);
    var due := Appears(c, late, s, t, names, newest, name);
    scanning := TakenUp(due);
    u, drained := ScanTurns(c, late, s, due, names + [name], s.dir + "/" + name);
  }

  /** A scan that is due finds a new file and turns to it. */
  lemma {:induction false} ScanTurns(c: Codec, late: Option<set<string>>, s0: System, s: System, names: seq<string>,
                                     path: string) returns (u: System, drained: set<string>)
    requires Reaches(c, late, s0, s) && DistinctTimes(s) && Lists(s, names) && IsNewest(s, path)
    requires s.w.watchedFile.Some? && Watches(s, s.w.watchedFile.value) && DirDue(s) && s.w.watchedFile != Some(path)
    ensures Reaches(c, late, s0, u) && OnlyTwoOpen(TakenUp(s)) && Turned(TakenUp(s), u, path, drained)
  {
    var scanning := TakenUp(s);
    TakesUp(c, late, s0, s);
    var plan := PlanExists(s, names);
    NewestOf(s, names, plan, path);
    u := RunPlan(c, scanning, plan, Some(|s.sources|)).(phase := Idle);
    drained := set p <- plan.toDrain;
    ScanReaches(c, late, s0, scanning, names, plan, Some(|s.sources|));
    PlanOutcome(c, scanning, plan, path);
  }

  /** After a turn the property holds the new descriptor, and the source left behind is cancelled but not closed. */
  lemma {:induction false} PropertyNamesTheNew(c: Codec, s: System, u: System, path: string, drained: set<string>)
    requires OnlyTwoOpen(s) && s.w.fileSource.Some? && Turned(s, u, path, drained) && Owned(u)
    ensures var prior := s.w.fileSource.value;
      && Enabled(u, RunCancelHandler(prior)) && u.sources[prior].target == File(s.w.watchedFile.value)
      && Owned(Next(c, u, RunCancelHandler(prior))) && !Owned(RunOldCancelHandler(u, prior))
  {
    var prior := s.w.fileSource.value;
    assert u.sources[prior] == s.sources[prior].(cancelled := true);
    OwnedStep(c, u, RunCancelHandler(prior));
    OldHandlerIsSafeExactly(u, prior);
    assert u.sources[|s.sources|].fd == u.w.fileFD;
  }
}
