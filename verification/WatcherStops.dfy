/** What stopping a watcher does. */
module WatcherStops {
  // A watcher that is stopped, or dropped, cancels its two sources, and the cancel handlers close the descriptors. What
  // may still come is a scan already asked for: it can attach a file again.

  import opened Options
  import opened SessionLines
  import opened WatcherPlan
  import opened WatcherSystem
  import opened SessionWatcher

  /** The watcher's fields hold the source. */
  predicate Holds(w: Watcher, k: nat) {
    w.dirSource == Some(k) || w.fileSource == Some(k)
  }

  // ---------------------------------------------------------------------------------------------------
  // One step
  // ---------------------------------------------------------------------------------------------------

  /** The two sources held are cancelled, and every other source is as it was. */
  ghost predicate HeldAreCancelled(s: System, t: System) {
    && |t.sources| == |s.sources|
    && forall k :: 0 <= k < |s.sources| ==>
         && t.sources[k].cancelled == (s.sources[k].cancelled || Holds(s.w, k))
         && t.sources[k].fd == s.sources[k].fd && t.sources[k].target == s.sources[k].target
         && t.sources[k].pending == s.sources[k].pending && t.sources[k].closed == s.sources[k].closed
  }

  /** Files, database, readers and descriptors are as they were. */
  ghost predicate RestUntouched(s: System, t: System) {
    && t.dir == s.dir && t.ingest == s.ingest && t.mtimes == s.mtimes && t.clock == s.clock && t.openFds == s.openFds
  }

  /** `stop()` cancels what the watcher holds and forgets it; the watched path and the drained files stay. */
  lemma {:induction false} StopCancels(c: Codec, s: System)
    requires Enabled(s, BeginStop)
    ensures var t := Next(c, s, BeginStop);
      && HeldAreCancelled(s, t) && RestUntouched(s, t) && t.me == s.me && t.phase == s.phase
      && t.tasks == s.tasks[1..]
      && t.w == Watcher(None, -1, None, -1, s.w.watchedFile, s.w.drainedFiles)
  {
  }

  /** Dropping the watcher cancels the same two sources. */
  lemma {:induction false} ReleaseCancels(c: Codec, s: System, next: nat)
    requires Enabled(s, Release(next))
    ensures var t := Next(c, s, Release(next));
      && HeldAreCancelled(s, t) && RestUntouched(s, t) && t.me == next && t.phase.Idle? && t.tasks == []
      && t.w == Watcher(None, -1, None, -1, None, {})
  {
  }

  // ---------------------------------------------------------------------------------------------------
  // Over runs
  // ---------------------------------------------------------------------------------------------------

  /** The sources that are neither cancelled nor closed are exactly those the watcher holds. */
  ghost predicate LiveAreHeld(s: System) {
    && (forall k: nat :: Holds(s.w, k) ==> k < |s.sources|)
    && (s.w.dirSource.Some? ==> s.w.dirSource != s.w.fileSource)
    && (forall k :: 0 <= k < |s.sources| ==> (!s.sources[k].cancelled && !s.sources[k].closed <==> Holds(s.w, k)))
  }

  /** A descriptor of this process belongs to a source that is still open and was made with it. */
  ghost predicate OwnersAreOpen(s: System) {
    forall fd <- s.openFds :: s.openFds[fd].Src? ==>
      var k := s.openFds[fd].id;
      k < |s.sources| && !s.sources[k].closed && s.sources[k].fd == fd
  }

  /** Between two starts of the object there is a stop. */
  predicate StartsOnce(s: System, e: Event) {
    e.BeginStart? ==> s.w.dirSource.None?
  }

  lemma {:induction false} LiveStep(c: Codec, s: System, e: Event)
    requires Enabled(s, e) && LiveAreHeld(s) && StartsOnce(s, e)
    ensures LiveAreHeld(Next(c, s, e))
  {
    if e.BeginStart? {
      LiveStart(c, s, e.result);
    } else if e.Attach? {
      LiveAttach(c, s, e.result);
    } else if e.BeginStop? || e.Release? {
      LiveStop(c, s, e);
    } else {
      LiveOtherwise(c, s, e);
    }
  }

  lemma {:induction false} LiveStop(c: Codec, s: System, e: Event)
    requires Enabled(s, e) && LiveAreHeld(s) && (e.BeginStop? || e.Release?)
    ensures LiveAreHeld(Next(c, s, e))
  {
    if e.BeginStop? {
      StopCancels(c, s);
    } else {
      ReleaseCancels(c, s, e.next);
    }
  }

  lemma {:induction false} LiveStart(c: Codec, s: System, result: Option<nat>)
    requires Enabled(s, BeginStart(result)) && LiveAreHeld(s) && s.w.dirSource.None?
    ensures LiveAreHeld(Next(c, s, BeginStart(result)))
  {
    assert s.w.fileSource.Some? ==> Holds(s.w, s.w.fileSource.value);
  }

  lemma {:induction false} LiveAttach(c: Codec, s: System, result: Option<nat>)
    requires Enabled(s, Attach(result)) && LiveAreHeld(s)
    ensures LiveAreHeld(Next(c, s, Attach(result)))
  {
    assert s.w.dirSource.Some? ==> Holds(s.w, s.w.dirSource.value);
    assert s.w.fileSource.Some? ==> Holds(s.w, s.w.fileSource.value);
  }

  lemma {:induction false} LiveOtherwise(c: Codec, s: System, e: Event)
    requires Enabled(s, e) && LiveAreHeld(s)
    requires !e.BeginStop? && !e.Release? && !e.BeginStart? && !e.Attach?
    ensures LiveAreHeld(Next(c, s, e))
  {
    var t := Next(c, s, e);
    if !e.Restart? {
      assert t.w.dirSource == s.w.dirSource && t.w.fileSource == s.w.fileSource && |t.sources| == |s.sources|;
      assert forall k :: Holds(t.w, k) == Holds(s.w, k);
      assert forall k :: 0 <= k < |s.sources| ==> t.sources[k].cancelled == s.sources[k].cancelled;
      assert forall k :: 0 <= k < |s.sources| && !s.sources[k].cancelled ==> t.sources[k].closed == s.sources[k].closed;
    }
  }

  /** A second start without a stop leaves the first directory source live and in nobody's hands. */
  lemma {:induction false} SecondStartIsSafeExactly(c: Codec, s: System, fd: nat)
    requires Enabled(s, BeginStart(Some(fd))) && LiveAreHeld(s)
    ensures LiveAreHeld(Next(c, s, BeginStart(Some(fd)))) <==> s.w.dirSource.None?
  {
    var t := Next(c, s, BeginStart(Some(fd)));
    if s.w.dirSource.Some? {
      var k := s.w.dirSource.value;
      assert Holds(s.w, k);
      assert t.sources[k] == s.sources[k] && !Holds(t.w, k);
    } else {
      LiveStep(c, s, BeginStart(Some(fd)));
    }
  }

  lemma {:induction false} OwnersStep(c: Codec, s: System, e: Event)
    requires Enabled(s, e) && OwnersAreOpen(s)
    ensures OwnersAreOpen(Next(c, s, e))
  {
    var t := Next(c, s, e);
    forall fd | fd in t.openFds && t.openFds[fd].Src?
      ensures t.openFds[fd].id < |t.sources|
      ensures !t.sources[t.openFds[fd].id].closed && t.sources[t.openFds[fd].id].fd == fd
    {
      assert fd in s.openFds && t.openFds[fd] == s.openFds[fd] ==> s.openFds[fd].Src?;
    }
  }

  ghost predicate Kept(s: System) {
    LiveAreHeld(s) && OwnersAreOpen(s)
  }

  lemma {:induction false} KeptAlways(c: Codec, states: seq<System>, events: seq<Event>)
    requires IsRun(c, states, events) && Kept(states[0])
    requires forall i :: 0 <= i < |events| ==> StartsOnce(states[i], events[i])
    ensures forall i :: 0 <= i < |states| ==> Kept(states[i])
    decreases |events|
  {
    if events != [] {
      var n := |events| - 1;
      RunPrefix(c, true, states, events);
      assert forall i :: 0 <= i < n ==> states[..n + 1][i] == states[i] && events[..n][i] == events[i];
      KeptAlways(c, states[..n + 1], events[..n]);
      assert states[..n + 1][n] == states[n];
      LiveStep(c, states[n], events[n]);
      OwnersStep(c, states[n], events[n]);
      assert forall i :: 0 <= i < n + 1 ==> states[..n + 1][i] == states[i];
    }
  }

  /**
   In every run, with a stop between two starts, the sources neither cancelled nor closed are exactly those the
   watcher's fields name.
   */
  lemma {:induction false} LiveAreHeldAlways(c: Codec, states: seq<System>, events: seq<Event>, i: nat, k: nat)
    requires IsRun(c, states, events) && Initial(states[0]) && i < |states| && k < |states[i].sources|
    requires forall i :: 0 <= i < |events| ==> StartsOnce(states[i], events[i])
    ensures !states[i].sources[k].cancelled && !states[i].sources[k].closed
       <==> states[i].w.dirSource == Some(k) || states[i].w.fileSource == Some(k)
  {
    KeptAlways(c, states, events);
    assert Kept(states[i]);
  }

  // ---------------------------------------------------------------------------------------------------
  // After a stop
  // ---------------------------------------------------------------------------------------------------

  /** Something that gives the watcher a source. */
  predicate Opens(e: Event) {
    (e.BeginStart? || e.Attach?) && e.result.Some?
  }

  predicate HoldsNothing(s: System) {
    s.w.dirSource.None? && s.w.fileSource.None?
  }

  lemma {:induction false} NothingStep(c: Codec, s: System, e: Event)
    requires Enabled(s, e) && HoldsNothing(s) && !Opens(e)
    ensures HoldsNothing(Next(c, s, e))
  {
  }

  lemma {:induction false} NothingSince(c: Codec, states: seq<System>, events: seq<Event>, n: nat, m: nat)
    requires IsRun(c, states, events) && n < m <= |events| && (events[n] == BeginStop || events[n].Release?)
    requires forall i :: n < i < m ==> !Opens(events[i])
    ensures HoldsNothing(states[m])
    decreases m
  {
    if m == n + 1 {
      RunStep(c, states, events, n);
      HoldsNothingAfter(c, states[n], events[n]);
    } else {
      NothingSince(c, states, events, n, m - 1);
      NothingStays(c, states, events, m - 1);
    }
  }

  lemma {:induction false} NothingStays(c: Codec, states: seq<System>, events: seq<Event>, i: nat)
    requires IsRun(c, states, events) && i < |events| && HoldsNothing(states[i]) && !Opens(events[i])
    ensures HoldsNothing(states[i + 1])
  {
    RunStep(c, states, events, i);
    NothingStep(c, states[i], events[i]);
  }

  lemma {:induction false} RunStep(c: Codec, states: seq<System>, events: seq<Event>, i: nat)
    requires IsRun(c, states, events) && i < |events|
    ensures Enabled(states[i], events[i]) && states[i + 1] == Next(c, states[i], events[i])
  {
  }

  lemma {:induction false} HoldsNothingAfter(c: Codec, s: System, e: Event)
    requires Enabled(s, e) && (e == BeginStop || e.Release?)
    ensures HoldsNothing(Next(c, s, e))
  {
    if e == BeginStop {
      StopCancels(c, s);
    } else {
      ReleaseCancels(c, s, e.next);
    }
  }

  /**
   After a stop, or after the watcher was dropped, and until something gives it a source again, every source still open
   has a cancel handler to run; and once no handler is left to run, no descriptor belongs to a source any more.
   */
  lemma {:induction false} StoppedReleasesAll(c: Codec, states: seq<System>, events: seq<Event>, n: nat)
    requires IsRun(c, states, events) && Initial(states[0])
    requires forall i :: 0 <= i < |events| ==> StartsOnce(states[i], events[i])
    requires n < |events| && (events[n] == BeginStop || events[n].Release?)
    requires forall i :: n < i < |events| ==> !Opens(events[i])
    ensures var t := states[|events|];
      && (forall k :: 0 <= k < |t.sources| && !t.sources[k].closed ==> Enabled(t, RunCancelHandler(k)))
      && ((forall k :: !Enabled(t, RunCancelHandler(k))) ==> forall fd <- t.openFds :: t.openFds[fd] == Elsewhere)
  {
    KeptAlways(c, states, events);
    NothingSince(c, states, events, n, |events|);
    var t := states[|events|];
    assert Kept(t) && HoldsNothing(t);
    assert forall k :: 0 <= k < |t.sources| && !t.sources[k].closed ==> Enabled(t, RunCancelHandler(k));
    assert forall fd <- t.openFds :: t.openFds[fd].Src? ==> Enabled(t, RunCancelHandler(t.openFds[fd].id));
  }

  /**
   What can give it one: a scan that was already asked for when the stop came. If its plan names a file, the stopped
   watcher attaches it, and follows that file from then on.
   */
  lemma {:induction false} LateScanAttaches(c: Codec, s: System, names: seq<string>, plan: DrainPlan, path: string,
                                            fd: nat) returns (t: System)
    requires s.phase.Idle? && s.Free() && s.tasks == [StopTask, CheckTask] && fd !in s.openFds
    requires Lists(s, names) && PlansScan(s, names, plan) && plan.newWatched == Some(path)
    ensures Reaches(c, None, s, t) && t.w.dirSource.None? && t.w.watchedFile == Some(path)
    ensures t.w.fileSource.Some? && t.w.fileSource.value < |t.sources|
    ensures t.sources[t.w.fileSource.value] == Source(fd, File(path), false, false, false)
  {
    var scanning := StoppedAndScanning(c, s);
    ScanReaches(c, None, s, scanning, names, plan, Some(fd));
    t := RunPlan(c, scanning, plan, Some(fd)).(phase := Idle);
    DrainAllKeeps(c, scanning, plan.toDrain, Idle);
  }

  lemma {:induction false} StoppedAndScanning(c: Codec, s: System) returns (t: System)
    requires s.phase.Idle? && s.Free() && s.tasks == [StopTask, CheckTask]
    ensures Reaches(c, None, s, t) && RestUntouched(s, t) && t.phase.Scanning? && t.me == s.me
    ensures t.w == Watcher(None, -1, None, -1, s.w.watchedFile, s.w.drainedFiles)
  {
    ReachesSelf(c, None, s);
    ReachesNext(c, None, s, s, BeginStop);
    var stopped := Next(c, s, BeginStop);
    StopCancels(c, s);
    ReachesNext(c, None, s, stopped, BeginCheck);
    t := Next(c, stopped, BeginCheck);
  }

  // ---------------------------------------------------------------------------------------------------
  // What comes from outside
  // ---------------------------------------------------------------------------------------------------

  /** The sources are as they were, but for an event that those on the target which are still open now have to take. */
  ghost predicate Notified(s: System, t: System, target: Target) {
    && |t.sources| == |s.sources|
    && forall k :: 0 <= k < |s.sources| ==>
         && t.sources[k].pending == (s.sources[k].pending || (s.sources[k].target == target && !s.sources[k].closed))
         && t.sources[k].fd == s.sources[k].fd && t.sources[k].target == s.sources[k].target
         && t.sources[k].cancelled == s.sources[k].cancelled && t.sources[k].closed == s.sources[k].closed
  }

  /** A new file is an event of the directory, more text one of its own file; both give the file the latest time. */
  lemma {:induction false} EventsReachExactly(c: Codec, s: System, e: Event)
    requires Enabled(s, e) && (e.Create? || e.Grow?)
    ensures
      var t, path := Next(c, s, e), if e.Create? then s.dir + "/" + e.name else e.path;
      && Notified(s, t, if e.Create? then Directory else File(path))
      && t.w == s.w && t.tasks == s.tasks && t.phase == s.phase && t.openFds == s.openFds
      && t.mtimes == s.mtimes[path := s.clock + 1] && t.clock == s.clock + 1
  {
  }

  /** A new process has no descriptor of the old one, no task, and nothing to hear from its sources. */
  lemma {:induction false} RestartEndsAll(c: Codec, s: System)
    ensures
      var t := Next(c, s, Restart);
      && t.openFds == map[] && t.tasks == [] && t.phase.Idle?
      && t.w == Watcher(None, -1, None, -1, None, {}) && |t.sources| == |s.sources|
      && forall k :: 0 <= k < |t.sources| ==>
           t.sources[k].closed && t.sources[k].cancelled && !t.sources[k].pending && !Enabled(t, Fire(k))
  {
  }
}
