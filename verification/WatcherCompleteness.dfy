/** Completeness of the watcher. */
module WatcherCompleteness {
  // Once it has settled, every session file has been read to its end and ingested.

  import opened Options
  import opened SessionLines
  import opened SessionTail
  import opened SessionIngest
  import opened SessionCoverage
  import opened SessionBlocks
  import opened WatcherPlan
  import opened WatcherSystem

  // ---------------------------------------------------------------------------------------------------
  // Session files
  // ---------------------------------------------------------------------------------------------------

  ghost predicate SessionPath(dir: string, path: string) {
    exists name :: IsSession(name) && path == dir + "/" + name
  }

  ghost predicate Session(dir: string, files: map<string, string>, path: string) {
    path in files && SessionPath(dir, path)
  }

  /** The session file with the greatest modification time. */
  ghost predicate Newest(dir: string, files: map<string, string>, mtimes: map<string, int>, path: string) {
    && Session(dir, files, path)
    && forall q :: Session(dir, files, q) && q != path ==> MTime(mtimes)(q) < MTime(mtimes)(path)
  }

  ghost predicate IsNewest(s: System, path: string) {
    Newest(s.dir, s.Files(), s.mtimes, path)
  }

  /** No two session files share a modification time, and no time lies in the future. */
  ghost predicate DistinctTimes(s: System) {
    && (forall p, q :: Session(s.dir, s.Files(), p) && Session(s.dir, s.Files(), q) && p != q ==>
          MTime(s.mtimes)(p) != MTime(s.mtimes)(q))
    && (forall p :: Session(s.dir, s.Files(), p) ==> MTime(s.mtimes)(p) <= s.clock)
  }

  /** The cursor stands at the end of the file. */
  predicate FullyRead(s: Store, path: string) {
    s.View().CursorOf(path) == |Content(s.files, path)|
  }

  /** What lies after the place is text the decoder accepts. */
  predicate DecodesFrom(c: Codec, files: map<string, string>, path: string, from: nat) {
    from <= |Content(files, path)| && c.decodes(Content(files, path)[from..])
  }

  /** So it is after every cursor, wherever it is kept. */
  ghost predicate Decodable(c: Codec, i: Ingest) {
    && (forall path :: DecodesFrom(c, i.store.files, path, i.store.db.CursorOf(path)))
    && (forall op <- i.store.queue :: op.Cursor? ==> DecodesFrom(c, i.store.files, op.path, op.offset))
    && (forall k <- i.tails :: DecodesFrom(c, i.store.files, i.tails[k].path, i.tails[k].cursor))
    && (forall k <- i.tails :: i.tails[k].Emitting? ==> DecodesFrom(c, i.store.files, i.tails[k].path, i.tails[k].end))
  }

  ghost predicate StoreInv(c: Codec, i: Ingest) {
    Within(i) && Decodable(c, i)
  }

  /** This watcher's tail, if it is inside one, started where the cursor still stands. */
  predicate TailAtCursor(i: Ingest, me: nat) {
    me in i.tails ==>
      var t := i.tails[me];
      t.cursor == i.store.View().CursorOf(t.path) && (t.Emitting? ==> t.cursor < t.end)
  }

  /** The tail under way will leave the cursor at the end of the file. */
  predicate WillRead(i: Ingest, me: nat, path: string) {
    me in i.tails && i.tails[me].path == path
    && (i.tails[me].Emitting? ==> i.tails[me].end == |Content(i.store.files, path)|)
  }

  /** Every usage line of the file is, or will be once the queue has run, in both tables. */
  ghost predicate LinesRecorded(c: Codec, s: Store, path: string) {
    var text := Content(s.files, path);
    forall l <- UsageLines(c, text, 0, |text|) :: RecordedIn(s.View(), path, l)
  }

  /**
   Two promises about a file that is finished with: the cursor stands at its end, or every line of it is recorded. A
   slower tail of another reader may move the cursor back, so the first is for one reader; the second is for any number.
   */
  datatype Goal = ToTheEnd | EveryLine

  ghost predicate IsDone(c: Codec, g: Goal, s: Store, path: string) {
    match g
    case ToTheEnd => FullyRead(s, path)
    case EveryLine => LinesRecorded(c, s, path)
  }

  ghost predicate IsRead(c: Codec, g: Goal, s: System, path: string) {
    IsDone(c, g, s.ingest.store, path) || WillRead(s.ingest, s.me, path)
  }

  /**
   Decodable text, opens and listings that succeed, a watcher that is started once. To the end of its files: no other
   readers, and dropped only while it is idle. To every line: reads that find whole lines.
   */
  ghost predicate Orderly(c: Codec, g: Goal, s: System, e: Event) {
    match e
    case Grow(path, data) => c.decodes(data)
    case BeginStart(result) => s.w == NEW_WATCHER
    case Attach(result) => result.Some?
    case ScanFailed => false
    case OtherBegins(_, _) => g.EveryLine?
    case Release(_) => g.ToTheEnd? ==> s.phase.Idle? && s.Free()
    case TailStep(step) => g.EveryLine? ==> ReadsWhole(c, s.ingest, step)
    case _ => true
  }

  /** And of the session files only the newest is written to: what completeness is promised for. */
  ghost predicate Disciplined(c: Codec, g: Goal, s: System, e: Event) {
    Orderly(c, g, s, e) && (e.Grow? && Session(s.dir, s.Files(), e.path) ==> IsNewest(s, e.path))
  }

  // ---------------------------------------------------------------------------------------------------
  // The invariant
  // ---------------------------------------------------------------------------------------------------

  predicate Started(s: System) {
    s.w.dirSource.Some?
  }

  /** The watcher's two sources are live and on the right targets. */
  predicate SourcesLive(s: System) {
    && Started(s)
    && s.w.dirSource.value < |s.sources|
    && s.sources[s.w.dirSource.value].target == Directory && !s.sources[s.w.dirSource.value].closed
    && !s.sources[s.w.dirSource.value].cancelled
    && s.w.fileSource.Some? == s.w.watchedFile.Some?
    && (s.w.fileSource.Some? ==>
         && s.w.fileSource.value < |s.sources|
         && s.sources[s.w.fileSource.value].target == File(s.w.watchedFile.value)
         && !s.sources[s.w.fileSource.value].closed && !s.sources[s.w.fileSource.value].cancelled)
  }

  /** A scan of the directory is still to come. */
  predicate ScanDue(s: System)
    requires SourcesLive(s)
  {
    s.sources[s.w.dirSource.value].pending || CheckTask in s.tasks || s.phase.Scanning?
  }

  /** A read of the watched file is still to come. */
  predicate ReadDue(s: System)
    requires SourcesLive(s) && s.w.watchedFile.Some?
  {
    s.sources[s.w.fileSource.value].pending || ReadTask(s.w.watchedFile.value) in s.tasks || s.phase.Reading?
  }

  predicate AboutToRead(s: System, path: string) {
    s.phase.Draining? && (path in s.phase.todo || s.phase.next == Some(path))
  }

  /** Drained files are finished with: fully read, and no longer the one being written. */
  ghost predicate DrainedAreDone(c: Codec, g: Goal, s: System) {
    forall p <- s.w.drainedFiles ::
      Session(s.dir, s.Files(), p) && IsRead(c, g, s, p) && !IsNewest(s, p)
  }

  ghost predicate WatchedIsRead(c: Codec, g: Goal, s: System)
    requires SourcesLive(s)
  {
    s.w.watchedFile.Some? ==> IsRead(c, g, s, s.w.watchedFile.value) || ReadDue(s)
  }

  ghost predicate OthersAreRead(c: Codec, g: Goal, s: System)
    requires SourcesLive(s)
  {
    forall p :: Session(s.dir, s.Files(), p) && s.w.watchedFile != Some(p) ==>
      IsRead(c, g, s, p) || ScanDue(s) || AboutToRead(s, p)
  }

  ghost predicate NewestIsWatched(s: System)
    requires SourcesLive(s)
  {
    forall p :: IsNewest(s, p) ==>
      s.w.watchedFile == Some(p) || ScanDue(s) || (s.phase.Draining? && s.phase.next == Some(p))
  }

  ghost predicate DrainInProgress(s: System) {
    s.phase.Draining? ==>
      && (forall p <- s.phase.todo :: Session(s.dir, s.Files(), p) && !IsNewest(s, p))
      && (s.phase.next.Some? ==> Session(s.dir, s.Files(), s.phase.next.value))
      && (s.phase.next.Some? && s.w.watchedFile.Some? ==>
            s.w.watchedFile.value in s.w.drainedFiles || s.w.watchedFile.value in s.phase.todo)
  }

  ghost predicate WatchedIsSession(s: System) {
    s.w.watchedFile.Some? ==> Session(s.dir, s.Files(), s.w.watchedFile.value)
  }

  ghost predicate Coverage(c: Codec, g: Goal, s: System) {
    && SourcesLive(s) && DrainedAreDone(c, g, s) && WatchedIsRead(c, g, s) && OthersAreRead(c, g, s)
    && NewestIsWatched(s) && DrainInProgress(s) && WatchedIsSession(s)
  }

  /** What the promise needs of the store: no other readers, or all cursors covered. */
  ghost predicate StoreKept(c: Codec, g: Goal, s: System) {
    match g
    case ToTheEnd => TailAtCursor(s.ingest, s.me) && OnlyMe(s)
    case EveryLine => CoverageInv(c, s.ingest)
  }

  ghost predicate Inv(c: Codec, g: Goal, s: System) {
    && StoreInv(c, s.ingest) && StoreKept(c, g, s) && DistinctTimes(s)
    && (Started(s) ==> Coverage(c, g, s))
  }

  // ---------------------------------------------------------------------------------------------------
  // The store under each step
  // ---------------------------------------------------------------------------------------------------

  lemma {:induction false} DecodesMore(c: Codec, files: map<string, string>, path: string, data: string, p: string,
                                       from: nat)
    requires c.Sound() && c.decodes(data) && DecodesFrom(c, files, p, from)
    ensures DecodesFrom(c, files[path := Content(files, path) + data], p, from)
  {
    if p == path {
      assert (Content(files, p) + data)[from..] == Content(files, p)[from..] + data;
    }
  }

  lemma {:induction false} DecodableAppend(c: Codec, i: Ingest, path: string, data: string)
    requires c.Sound() && c.decodes(data) && Decodable(c, i)
    ensures Decodable(c, Exec(c, i, Append(path, data)))
  {
    forall p, from: nat | DecodesFrom(c, i.store.files, p, from)
      ensures DecodesFrom(c, Exec(c, i, Append(path, data)).store.files, p, from)
    {
      DecodesMore(c, i.store.files, path, data, p, from);
    }
  }

  lemma {:induction false} ViewDecodes(c: Codec, i: Ingest, path: string)
    requires Decodable(c, i)
    ensures DecodesFrom(c, i.store.files, path, i.store.View().CursorOf(path))
  {
    ViewExtends(i.store.db, i.store.queue);
  }

  lemma {:induction false} StoreInvStep(c: Codec, i: Ingest, step: Step)
    requires c.Sound() && StoreInv(c, i) && (step.Append? ==> c.decodes(step.data))
    ensures StoreInv(c, Exec(c, i, step))
  {
    WithinStep(c, i, step);
    if Can(i, step) {
      match step
      case Append(path, data) => DecodableAppend(c, i, path, data);
      case Begin(_, _) => DecodableSync(c, i, step);
      case ReadFile(reader) => DecodableRead(c, i, reader);
      case WriteTrace(_) => DecodableSync(c, i, step);
      case Commit => assert i.store.queue[0] in i.store.queue && forall op <- i.store.queue[1..] :: op in i.store.queue;
      case _ =>
    }
  }

  /** A synchronous call commits the queue, whose cursors were in order. */
  lemma {:induction false} DecodableSync(c: Codec, i: Ingest, step: Step)
    requires Decodable(c, i) && Can(i, step) && (step.Begin? || step.WriteTrace?)
    ensures Decodable(c, Exec(c, i, step))
  {
    var t := Exec(c, i, step);
    forall p ensures DecodesFrom(c, t.store.files, p, t.store.db.CursorOf(p))
    {
      ViewDecodes(c, i, p);
      assert t.store.db.CursorOf(p) == i.store.View().CursorOf(p);
    }
    if step.Begin? {
      assert t.tails[step.reader] == InFlight.Begun(step.path, t.store.db.CursorOf(step.path));
    }
  }

  lemma {:induction false} DecodableRead(c: Codec, i: Ingest, reader: nat)
    requires c.Sound() && StoreInv(c, i) && Can(i, ReadFile(reader))
    ensures Decodable(c, Exec(c, i, ReadFile(reader)))
  {
    var content := Content(i.store.files, i.tails[reader].path);
    assert content[|content|..] == "";
  }

  /** A tail that reads finds everything up to the end, since what it finds decodes. */
  lemma {:induction false} ReadFindsAll(c: Codec, i: Ingest, k: nat)
    requires StoreInv(c, i) && Can(i, ReadFile(k))
    ensures var t := i.tails[k];
      match Read(c, i.store.files, t.path, t.cursor)
      case Nothing => t.cursor == |Content(i.store.files, t.path)|
      case Window(_, end) => t.cursor < end == |Content(i.store.files, t.path)|
  {
    var t := i.tails[k];
    assert TailWithin(i.store.files, t) && DecodesFrom(c, i.store.files, t.path, t.cursor);
    assert t.cursor == SeekTo(t.cursor, |Content(i.store.files, t.path)|);
  }

  /** With one reader, the steps of its tail never take the cursor from the end of a file. */
  lemma {:induction false} CursorStays(c: Codec, s: System, step: Step, path: string)
    requires Enabled(s, TailStep(step)) && StoreInv(c, s.ingest) && StoreKept(c, ToTheEnd, s)
    ensures var t := Next(c, s, TailStep(step));
      TailAtCursor(t.ingest, t.me) && (IsRead(c, ToTheEnd, s, path) ==> IsRead(c, ToTheEnd, t, path))
  {
    var i, t := s.ingest, Next(c, s, TailStep(step));
    RunOne(c, i, step);
    ViewAfter(c, i, step);
    match step
    case ReadFile(reader) => ReadFindsAll(c, i, reader);
    case StoreCursor(reader) => assert i.tails[reader].cursor == i.store.View().CursorOf(i.tails[reader].path);
    case _ =>
  }

  /** No step short of a crash takes a recorded line away. */
  lemma {:induction false} LinesStay(c: Codec, i: Ingest, step: Step, path: string)
    requires LinesRecorded(c, i.store, path) && !step.Crash? && !step.Append?
    ensures LinesRecorded(c, Exec(c, i, step).store, path)
  {
    var v, u := i.store.View(), Exec(c, i, step).store.View();
    ViewAfter(c, i, step);
    assert Extends(v, u);
    var text := Content(i.store.files, path);
    forall l | l in UsageLines(c, text, 0, |text|) ensures RecordedIn(u, path, l)
    {
      assert RecordedIn(v, path, l);
    }
  }

  /** A covered place at the end of the file means that all its lines are recorded. */
  lemma {:induction false} CoveredToTheEnd(c: Codec, s: Store, path: string)
    requires CoveredTo(c, s.files, s.db, path, |Content(s.files, path)|)
    ensures LinesRecorded(c, s, path)
  {
    SyncExtends(s);
    CoveredMore(c, s.files, s.db, s.View(), path, |Content(s.files, path)|);
  }

  /** A tail that has written its window up to the end of the file has recorded every line. */
  lemma {:induction false} WindowRecorded(c: Codec, s: Store, t: InFlight)
    requires !c.usage("") && TailCovered(c, s, t) && t.Emitting? && t.next == |t.lines|
    requires t.end == |Content(s.files, t.path)|
    ensures LinesRecorded(c, s, t.path)
  {
    var text := Content(s.files, t.path);
    UsageLinesSplit(c, text, 0, t.cursor, t.end);
    forall l | l in UsageLines(c, text, 0, t.end) ensures RecordedIn(s.db, t.path, l)
    {
      if l in t.lines {
        var k :| 0 <= k < |t.lines| && t.lines[k] == l;
      }
    }
    CoveredToTheEnd(c, s, t.path);
  }

  lemma {:induction false} OwnReadRecords(c: Codec, i: Ingest, me: nat)
    requires StoreInv(c, i) && CoverageInv(c, i) && Can(i, ReadFile(me))
    ensures var t, path := Exec(c, i, ReadFile(me)), i.tails[me].path;
      LinesRecorded(c, t.store, path) || WillRead(t, me, path)
  {
    ReadFindsAll(c, i, me);
    assert TailCovered(c, i.store, i.tails[me]);
    if i.tails[me].cursor == |Content(i.store.files, i.tails[me].path)| {
      CoveredToTheEnd(c, i.store, i.tails[me].path);
    }
  }

  lemma {:induction false} OwnStoreRecords(c: Codec, i: Ingest, me: nat)
    requires !c.usage("") && CoverageInv(c, i) && Can(i, StoreCursor(me)) && WillRead(i, me, i.tails[me].path)
    ensures LinesRecorded(c, Exec(c, i, StoreCursor(me)).store, i.tails[me].path)
  {
    assert TailCovered(c, i.store, i.tails[me]);
    WindowRecorded(c, i.store, i.tails[me]);
    LinesStay(c, i, StoreCursor(me), i.tails[me].path);
  }

  /** With any number of readers, the steps of their tails never undo what is recorded or about to be. */
  lemma {:induction false} LinesStayRead(c: Codec, i: Ingest, me: nat, step: Step, path: string)
    requires !c.usage("") && StoreInv(c, i) && CoverageInv(c, i) && IsTailStep(step) && Can(i, step)
    requires LinesRecorded(c, i.store, path) || WillRead(i, me, path)
    ensures var t := Exec(c, i, step); LinesRecorded(c, t.store, path) || WillRead(t, me, path)
  {
    if LinesRecorded(c, i.store, path) {
      LinesStay(c, i, step, path);
    } else if step == ReadFile(me) {
      OwnReadRecords(c, i, me);
    } else if step == StoreCursor(me) {
      OwnStoreRecords(c, i, me);
    } else {
      WillReadStays(c, i, me, step, path);
    }
  }

  lemma {:induction false} WillReadStays(c: Codec, i: Ingest, me: nat, step: Step, path: string)
    requires WillRead(i, me, path) && IsTailStep(step) && step != ReadFile(me) && step != StoreCursor(me)
    ensures WillRead(Exec(c, i, step), me, path)
  {
  }

  /** A tail begun: its file will be read, and the others are as they were. */
  lemma {:induction false} BeginReads(c: Codec, g: Goal, s: System, t: System, path: string)
    requires s.Free() && t.me == s.me && t.ingest == Exec(c, s.ingest, Begin(s.me, path))
    ensures IsRead(c, g, t, path) && (forall p :: IsRead(c, g, s, p) ==> IsRead(c, g, t, p))
    ensures TailAtCursor(t.ingest, t.me) && t.Files() == s.Files()
  {
    ViewAfter(c, s.ingest, Begin(s.me, path));
  }

  // ---------------------------------------------------------------------------------------------------
  // Coverage under each event
  // ---------------------------------------------------------------------------------------------------

  /** Events that leave the files, the cursors and the watcher's fields alone. */
  predicate Quiet(e: Event) {
    e.ElsewhereOpens? || e.ElsewhereCloses? || e.Fire? || e.RunCancelHandler? || e.CallStart? || e.CallStop?
    || e.BeginCheck?
  }

  lemma {:induction false} QuietEvents(c: Codec, g: Goal, s: System, e: Event)
    requires Enabled(s, e) && Coverage(c, g, s) && Quiet(e)
    ensures Coverage(c, g, Next(c, s, e))
  {
    var t := Next(c, s, e);
    assert t.ingest == s.ingest && t.me == s.me && t.mtimes == s.mtimes && t.w == s.w && t.dir == s.dir;
    StaysDue(c, s, e);
    CoverageCarries(c, g, s, t);
  }

  /** What was due stays due. */
  lemma {:induction false} StaysDue(c: Codec, s: System, e: Event)
    requires Enabled(s, e) && SourcesLive(s) && Quiet(e)
    ensures var t := Next(c, s, e);
      SourcesLive(t) && (ScanDue(s) ==> ScanDue(t)) && (s.w.watchedFile.Some? && ReadDue(s) ==> ReadDue(t))
  {
    var t := Next(c, s, e);
    assert t.w == s.w;
    assert forall task <- s.tasks :: task in t.tasks || (e.BeginCheck? && task.CheckTask?) by {
      assert s.tasks != [] ==> s.tasks == [s.tasks[0]] + s.tasks[1..];
    }
  }

  /** The same files, watcher and drain, nothing unread again, and what was due is still due. */
  lemma {:induction false} CoverageCarries(c: Codec, g: Goal, s: System, t: System)
    requires Coverage(c, g, s) && SourcesLive(t) && t.Files() == s.Files()
    requires t.w == s.w && t.dir == s.dir && t.mtimes == s.mtimes
    requires s.phase.Draining? || t.phase.Draining? ==> t.phase == s.phase
    requires ScanDue(s) ==> ScanDue(t)
    requires s.w.watchedFile.Some? && ReadDue(s) ==> ReadDue(t)
    requires forall p :: IsRead(c, g, s, p) ==> IsRead(c, g, t, p)
    ensures Coverage(c, g, t)
  {
    assert forall p :: IsNewest(t, p) == IsNewest(s, p);
  }

  /** What the queue and the tails of all readers do. */
  predicate Stepping(e: Event) {
    e.DbCommit? || e.TailStep? || e.OtherBegins?
  }

  /** Files and watcher stay, and what is read stays read. */
  lemma {:induction false} SteppingEvents(c: Codec, g: Goal, s: System, e: Event)
    requires !c.usage("") && Enabled(s, e) && Orderly(c, g, s, e) && Stepping(e) && Coverage(c, g, s)
    requires StoreInv(c, s.ingest) && StoreKept(c, g, s)
    ensures Coverage(c, g, Next(c, s, e))
  {
    var t := Next(c, s, e);
    forall p ensures IsRead(c, g, s, p) ==> IsRead(c, g, t, p)
    {
      StepReads(c, g, s, e, p);
    }
    StepReads(c, g, s, e, "");
    assert t.w == s.w && t.mtimes == s.mtimes && t.sources == s.sources && t.tasks == s.tasks && t.phase == s.phase;
    CoverageCarries(c, g, s, t);
  }

  lemma {:induction false} StepReads(c: Codec, g: Goal, s: System, e: Event, path: string)
    requires !c.usage("") && Enabled(s, e) && Orderly(c, g, s, e) && Stepping(e)
    requires StoreInv(c, s.ingest) && StoreKept(c, g, s)
    ensures var t := Next(c, s, e);
      t.Files() == s.Files() && (IsRead(c, g, s, path) ==> IsRead(c, g, t, path))
  {
    TimesUntouched(c, s, e);
    match e
    case TailStep(step) =>
      if g.ToTheEnd? {
        CursorStays(c, s, step, path);
      } else if IsRead(c, g, s, path) {
        RunOne(c, s.ingest, step);
        LinesStayRead(c, s.ingest, s.me, step, path);
      }
    case DbCommit =>
      RunOne(c, s.ingest, Commit);
      ViewAfter(c, s.ingest, Commit);
    case OtherBegins(reader, p) =>
      RunOne(c, s.ingest, Begin(reader, p));
      ViewAfter(c, s.ingest, Begin(reader, p));
  }

  lemma {:induction false} ReadTaskEvent(c: Codec, g: Goal, s: System)
    requires Enabled(s, BeginRead) && Coverage(c, g, s)
    ensures Coverage(c, g, Next(c, s, BeginRead))
  {
    var t := Next(c, s, BeginRead);
    assert s.tasks == [s.tasks[0]] + s.tasks[1..];
    assert SourcesLive(t) && (ScanDue(s) ==> ScanDue(t));
    if s.w.watchedFile == Some(s.tasks[0].path) {
      RunOne(c, s.ingest, Begin(s.me, s.w.watchedFile.value));
      BeginReads(c, g, s, t, s.w.watchedFile.value);
    } else if s.w.watchedFile.Some? {
      assert ReadDue(s) ==> ReadDue(t);
    }
  }

  lemma {:induction false} InitialReadEvent(c: Codec, g: Goal, s: System)
    requires Enabled(s, InitialRead) && Coverage(c, g, s)
    ensures Coverage(c, g, Next(c, s, InitialRead))
  {
    var t := Next(c, s, InitialRead);
    assert SourcesLive(t) && (ScanDue(s) ==> ScanDue(t));
    RunOne(c, s.ingest, Begin(s.me, s.w.watchedFile.value));
    BeginReads(c, g, s, t, s.w.watchedFile.value);
  }

  /** What a new or grown file `path` leaves alone. */
  ghost predicate OnlyTouched(c: Codec, g: Goal, s: System, t: System, path: string) {
    && t.dir == s.dir && t.w == s.w && t.phase == s.phase && t.tasks == s.tasks
    && (forall p :: Session(s.dir, s.Files(), p) ==> Session(t.dir, t.Files(), p))
    && (forall p :: Session(t.dir, t.Files(), p) && p != path ==> Session(s.dir, s.Files(), p))
    && (forall p :: p != path ==> (IsRead(c, g, t, p) <==> IsRead(c, g, s, p)))
    && (forall p :: p != path && IsNewest(t, p) ==> IsNewest(s, p))
  }

  lemma {:induction false} TouchedFacts(c: Codec, g: Goal, s: System, t: System, path: string, data: string)
    requires t.dir == s.dir && t.w == s.w && t.phase == s.phase && t.tasks == s.tasks && t.me == s.me
      && DistinctTimes(s)
    requires t.ingest == Exec(c, s.ingest, Append(path, data)) && t.mtimes == s.mtimes[path := s.clock + 1]
    ensures OnlyTouched(c, g, s, t, path)
  {
    ViewAfter(c, s.ingest, Append(path, data));
    assert forall p :: p != path ==> Content(t.Files(), p) == Content(s.Files(), p);
    assert forall p :: p != path ==> MTime(t.mtimes)(p) == MTime(s.mtimes)(p);
    assert forall p :: p != path ==> (Session(t.dir, t.Files(), p) <==> Session(s.dir, s.Files(), p));
    forall p | p != path && IsNewest(t, p) ensures IsNewest(s, p)
    {
      OlderThanTheTouched(s, t, path, p);
    }
  }

  lemma {:induction false} OlderThanTheTouched(s: System, t: System, path: string, p: string)
    requires DistinctTimes(s) && p != path && IsNewest(t, p) && t.dir == s.dir
    requires t.mtimes == s.mtimes[path := s.clock + 1]
    requires forall q :: q != path ==> (Session(t.dir, t.Files(), q) <==> Session(s.dir, s.Files(), q))
    requires Session(s.dir, s.Files(), path) ==> Session(t.dir, t.Files(), path)
    ensures IsNewest(s, p)
  {
    assert forall q :: q != path ==> MTime(t.mtimes)(q) == MTime(s.mtimes)(q);
  }

  /** A touch gives the file the latest time of all. */
  lemma {:induction false} TouchedTimes(c: Codec, s: System, t: System, path: string, data: string)
    requires t.dir == s.dir && t.clock == s.clock + 1 && DistinctTimes(s)
    requires t.ingest == Exec(c, s.ingest, Append(path, data)) && t.mtimes == s.mtimes[path := s.clock + 1]
    ensures DistinctTimes(t)
  {
    assert forall p :: p != path ==> MTime(t.mtimes)(p) == MTime(s.mtimes)(p);
    assert forall p :: p != path && Session(t.dir, t.Files(), p) ==> Session(s.dir, s.Files(), p);
  }

  /** A new file: the live directory source makes a scan due. */
  lemma {:induction false} CreateEvent(c: Codec, g: Goal, s: System, name: string)
    requires Enabled(s, Create(name)) && DistinctTimes(s) && Coverage(c, g, s)
    ensures Coverage(c, g, Next(c, s, Create(name)))
  {
    var path, t := s.dir + "/" + name, Next(c, s, Create(name));
    RunOne(c, s.ingest, Append(path, ""));
    TouchedFacts(c, g, s, t, path, "");
  }

  /** The newest file grows: it is being watched, about to be, or a scan is due that will find it. */
  lemma {:induction false} GrowEvent(c: Codec, g: Goal, s: System, path: string, data: string)
    requires Enabled(s, Grow(path, data)) && Disciplined(c, g, s, Grow(path, data))
    requires DistinctTimes(s) && Coverage(c, g, s)
    ensures Coverage(c, g, Next(c, s, Grow(path, data)))
  {
    var t := Next(c, s, Grow(path, data));
    RunOne(c, s.ingest, Append(path, data));
    TouchedFacts(c, g, s, t, path, data);
    assert Session(t.dir, t.Files(), path) ==> IsNewest(s, path);
    NewestTouched(c, g, s, t, path);
  }

  lemma {:induction false} NewestTouched(c: Codec, g: Goal, s: System, t: System, path: string)
    requires Coverage(c, g, s) && OnlyTouched(c, g, s, t, path) && t.sources == Notify(s.sources, File(path))
    requires Session(t.dir, t.Files(), path) ==> IsNewest(s, path)
    ensures Coverage(c, g, t)
  {
    assert SourcesLive(t) && (ScanDue(s) ==> ScanDue(t));
    assert s.w.watchedFile.Some? ==> (ReadDue(s) ==> ReadDue(t)) && (s.w.watchedFile.value == path ==> ReadDue(t));
  }

  lemma {:induction false} ListingIsExact(s: System, names: seq<string>, path: string)
    requires Lists(s, names)
    ensures path in SessionPaths(names, s.dir) <==> Session(s.dir, s.Files(), path)
  {
    SessionPathsExactly(names, s.dir, path);
  }

  lemma {:induction false} ScanEvent(c: Codec, g: Goal, s: System, names: seq<string>, plan: DrainPlan)
    requires Enabled(s, Scan(names, plan)) && DistinctTimes(s) && Coverage(c, g, s)
    ensures Coverage(c, g, Next(c, s, Scan(names, plan)))
  {
    var t, paths := Next(c, s, Scan(names, plan)), SessionPaths(names, s.dir);
    LatestOfListing(s, names);
    assert t.ingest == s.ingest && t.w == s.w && t.mtimes == s.mtimes;
    assert SourcesLive(t) && (s.w.watchedFile.Some? && ReadDue(s) ==> ReadDue(t));
    assert forall p :: IsRead(c, g, t, p) == IsRead(c, g, s, p) && IsNewest(t, p) == IsNewest(s, p);
    assert DrainedAreDone(c, g, t) && WatchedIsRead(c, g, t) && WatchedIsSession(t);
    ScanAccounts(c, g, s, t, paths, plan);
  }

  /** A listing shows the session files, and the latest of them is the newest one. */
  lemma {:induction false} LatestOfListing(s: System, names: seq<string>)
    requires Lists(s, names) && DistinctTimes(s)
    ensures var paths := SessionPaths(names, s.dir);
      && (forall p :: p in paths <==> Session(s.dir, s.Files(), p))
      && (paths == [] ==> forall p :: !IsNewest(s, p))
      && (paths != [] ==> forall p :: IsNewest(s, p) <==> p == Latest(paths, MTime(s.mtimes)))
  {
    var paths := SessionPaths(names, s.dir);
    forall p ensures p in paths <==> Session(s.dir, s.Files(), p)
    {
      ListingIsExact(s, names, p);
    }
    if paths != [] {
      LatestIsNewest(paths, MTime(s.mtimes));
      var latest := Latest(paths, MTime(s.mtimes));
      assert IsNewest(s, latest);
      assert forall p :: IsNewest(s, p) ==> p == latest;
    }
  }

  /** Each file of the plan's listing is watched, drained, about to be drained or about to be watched. */
  lemma {:induction false} ScanAccounts(c: Codec, g: Goal, s: System, t: System, paths: seq<string>, plan: DrainPlan)
    requires SourcesLive(s) && SourcesLive(t) && DrainedAreDone(c, g, s) && WatchedIsSession(s)
    requires t == s.(phase := Draining(plan.toDrain, plan.newWatched))
    requires IsPlan(plan, paths, s.w.watchedFile, s.w.drainedFiles, MTime(s.mtimes))
    requires forall p :: p in paths <==> Session(s.dir, s.Files(), p)
    requires paths == [] ==> forall p :: !IsNewest(s, p)
    requires paths != [] ==> forall p :: IsNewest(s, p) <==> p == Latest(paths, MTime(s.mtimes))
    ensures OthersAreRead(c, g, t) && NewestIsWatched(t) && DrainInProgress(t)
  {
    assert forall p :: IsRead(c, g, t, p) == IsRead(c, g, s, p) && IsNewest(t, p) == IsNewest(s, p);
    if paths != [] {
      var latest := Latest(paths, MTime(s.mtimes));
      assert IsNewest(s, latest);
      assert latest in paths;
    }
  }

  lemma {:induction false} DrainEvent(c: Codec, g: Goal, s: System)
    requires Enabled(s, DrainOne) && Coverage(c, g, s)
    ensures Coverage(c, g, Next(c, s, DrainOne))
  {
    var t, path := Next(c, s, DrainOne), s.phase.todo[0];
    assert s.phase.todo == [path] + s.phase.todo[1..];
    assert path in s.phase.todo;
    RunOne(c, s.ingest, Begin(s.me, path));
    BeginReads(c, g, s, t, path);
    assert forall p :: AboutToRead(s, p) ==> p == path || AboutToRead(t, p);
    assert SourcesLive(t) && (ScanDue(s) ==> ScanDue(t)) && (s.w.watchedFile.Some? && ReadDue(s) ==> ReadDue(t));
    assert forall p :: IsNewest(t, p) == IsNewest(s, p);
    assert DrainedAreDone(c, g, t) && DrainInProgress(t);
  }

  lemma {:induction false} FinishEvent(c: Codec, g: Goal, s: System)
    requires Enabled(s, FinishScan) && Coverage(c, g, s)
    ensures Coverage(c, g, Next(c, s, FinishScan))
  {
    var t := Next(c, s, FinishScan);
    assert SourcesLive(t) && (ScanDue(s) ==> ScanDue(t)) && (s.w.watchedFile.Some? && ReadDue(s) ==> ReadDue(t));
  }

  /** A rotation: the file left behind has been drained, the new one is read next. */
  lemma {:induction false} AttachEvent(c: Codec, g: Goal, s: System, fd: nat)
    requires Enabled(s, Attach(Some(fd))) && Coverage(c, g, s)
    ensures Coverage(c, g, Next(c, s, Attach(Some(fd))))
  {
    var t := Next(c, s, Attach(Some(fd)));
    AttachGoesLive(c, s, fd);
    assert forall p :: IsRead(c, g, t, p) == IsRead(c, g, s, p) && IsNewest(t, p) == IsNewest(s, p);
    assert s.w.watchedFile.Some? ==> IsRead(c, g, s, s.w.watchedFile.value) && !IsNewest(s, s.w.watchedFile.value);
  }

  /** The new source is live, the old one cancelled, and the first read is due. */
  lemma {:induction false} AttachGoesLive(c: Codec, s: System, fd: nat)
    requires Enabled(s, Attach(Some(fd))) && SourcesLive(s)
    ensures var t, path := Next(c, s, Attach(Some(fd))), s.phase.next.value;
      && SourcesLive(t) && (ScanDue(s) ==> ScanDue(t)) && t.w.watchedFile == Some(path) && ReadDue(t)
      && t.ingest == s.ingest && t.me == s.me && t.dir == s.dir && t.mtimes == s.mtimes
      && t.w.drainedFiles == s.w.drainedFiles && t.phase.Reading?
  {
    assert s.w.fileSource.Some? ==> s.w.fileSource.value != s.w.dirSource.value;
  }

  lemma {:induction false} StartEvent(c: Codec, g: Goal, s: System, result: Option<nat>)
    requires Enabled(s, BeginStart(result)) && s.w == NEW_WATCHER
    ensures var t := Next(c, s, BeginStart(result)); Started(t) ==> Coverage(c, g, t)
  {
    var t := Next(c, s, BeginStart(result));
    if result.Some? {
      assert SourcesLive(t) && ScanDue(t);
    }
  }

  // ---------------------------------------------------------------------------------------------------
  // Whole runs
  // ---------------------------------------------------------------------------------------------------

  lemma {:induction false} StoreInvEvent(c: Codec, g: Goal, s: System, e: Event)
    requires c.Sound() && Enabled(s, e) && Orderly(c, g, s, e) && StoreInv(c, s.ingest)
    ensures StoreInv(c, Next(c, s, e).ingest)
  {
    var steps := StoreSteps(true, s, e);
    OneStepAtMost(true, s, e);
    if steps != [] {
      assert steps == [steps[0]];
      RunOne(c, s.ingest, steps[0]);
      StoreInvStep(c, s.ingest, steps[0]);
    }
  }

  lemma {:induction false} TailAtCursorEvent(c: Codec, s: System, e: Event)
    requires Enabled(s, e) && Orderly(c, ToTheEnd, s, e) && StoreInv(c, s.ingest) && StoreKept(c, ToTheEnd, s)
    ensures StoreKept(c, ToTheEnd, Next(c, s, e))
  {
    OnlyMeStep(c, true, s, e, "");
    if e.TailStep? {
      CursorStays(c, s, e.step, "");
    } else {
      var steps := StoreSteps(true, s, e);
      OneStepAtMost(true, s, e);
      if steps != [] {
        assert steps == [steps[0]];
        RunOne(c, s.ingest, steps[0]);
        ViewAfter(c, s.ingest, steps[0]);
      }
    }
  }

  lemma {:induction false} CoverageInvEvent(c: Codec, s: System, e: Event)
    requires !c.usage("") && Enabled(s, e) && Orderly(c, EveryLine, s, e) && Within(s.ingest)
    requires CoverageInv(c, s.ingest)
    ensures CoverageInv(c, Next(c, s, e).ingest)
  {
    var steps := StoreSteps(true, s, e);
    OneStepAtMost(true, s, e);
    if steps != [] {
      assert steps == [steps[0]];
      RunOne(c, s.ingest, steps[0]);
      EventReadsWhole(c, s, e);
      SessionCoverage.CoverageStep(c, s.ingest, steps[0]);
    }
  }

  lemma {:induction false} StoreKeptEvent(c: Codec, g: Goal, s: System, e: Event)
    requires c.Sound() && Enabled(s, e) && Orderly(c, g, s, e) && StoreInv(c, s.ingest) && StoreKept(c, g, s)
    ensures StoreKept(c, g, Next(c, s, e))
  {
    if g.ToTheEnd? {
      TailAtCursorEvent(c, s, e);
    } else {
      CoverageInvEvent(c, s, e);
    }
  }

  lemma {:induction false} TimesUntouched(c: Codec, s: System, e: Event)
    requires Enabled(s, e) && !e.Create? && !e.Grow?
    ensures var t := Next(c, s, e);
      t.dir == s.dir && t.Files() == s.Files() && t.mtimes == s.mtimes && t.clock == s.clock
  {
    var steps := StoreSteps(true, s, e);
    OneStepAtMost(true, s, e);
    if steps != [] {
      assert steps == [steps[0]] && !steps[0].Append?;
      RunOne(c, s.ingest, steps[0]);
    }
  }

  lemma {:induction false} DistinctTimesStep(c: Codec, s: System, e: Event)
    requires Enabled(s, e) && DistinctTimes(s)
    ensures DistinctTimes(Next(c, s, e))
  {
    var t := Next(c, s, e);
    if e.Create? {
      RunOne(c, s.ingest, Append(s.dir + "/" + e.name, ""));
      TouchedTimes(c, s, t, s.dir + "/" + e.name, "");
    } else if e.Grow? {
      RunOne(c, s.ingest, Append(e.path, e.data));
      TouchedTimes(c, s, t, e.path, e.data);
    } else {
      TimesUntouched(c, s, e);
    }
  }

  lemma {:induction false} CoverageStep(c: Codec, g: Goal, s: System, e: Event)
    requires Enabled(s, e) && Disciplined(c, g, s, e) && StoreInv(c, s.ingest) && DistinctTimes(s)
    requires !c.usage("") && StoreKept(c, g, s)
    requires Started(s) ==> Coverage(c, g, s)
    ensures Started(Next(c, s, e)) ==> Coverage(c, g, Next(c, s, e))
  {
    if e.BeginStart? {
      StartEvent(c, g, s, e.result);
    } else if Started(s) && !e.Restart? && !e.Release? && !e.BeginStop? {
      RunningStep(c, g, s, e);
    } else {
      OnlyStartStarts(c, s, e);
    }
  }

  lemma {:induction false} OnlyStartStarts(c: Codec, s: System, e: Event)
    requires Enabled(s, e) && !e.BeginStart?
    requires !Started(s) || e.Restart? || e.Release? || e.BeginStop?
    ensures !Started(Next(c, s, e))
  {
  }

  lemma {:induction false} RunningStep(c: Codec, g: Goal, s: System, e: Event)
    requires Enabled(s, e) && Disciplined(c, g, s, e) && StoreInv(c, s.ingest) && DistinctTimes(s) && Coverage(c, g, s)
    requires !c.usage("") && StoreKept(c, g, s)
    requires !e.BeginStart? && !e.Restart? && !e.Release? && !e.BeginStop?
    ensures Coverage(c, g, Next(c, s, e))
  {
    if Stepping(e) {
      SteppingEvents(c, g, s, e);
    } else {
      OtherStep(c, g, s, e);
    }
  }

  lemma {:induction false} OtherStep(c: Codec, g: Goal, s: System, e: Event)
    requires Enabled(s, e) && Disciplined(c, g, s, e) && DistinctTimes(s) && Coverage(c, g, s) && !Stepping(e)
    requires !e.BeginStart? && !e.Restart? && !e.Release? && !e.BeginStop?
    ensures Coverage(c, g, Next(c, s, e))
  {
    match e
    case Create(name) => CreateEvent(c, g, s, name);
    case Grow(path, data) => GrowEvent(c, g, s, path, data);
    case BeginRead => ReadTaskEvent(c, g, s);
    case Scan(names, plan) => ScanEvent(c, g, s, names, plan);
    case DrainOne => DrainEvent(c, g, s);
    case FinishScan => FinishEvent(c, g, s);
    case Attach(result) => AttachEvent(c, g, s, result.value);
    case InitialRead => InitialReadEvent(c, g, s);
    case _ => QuietEvents(c, g, s, e);
  }

  ghost predicate DisciplinedRun(c: Codec, g: Goal, states: seq<System>, events: seq<Event>) {
    IsRun(c, states, events) && forall i :: 0 <= i < |events| ==> Disciplined(c, g, states[i], events[i])
  }

  lemma {:induction false} InvStep(c: Codec, g: Goal, s: System, e: Event)
    requires c.Sound() && Enabled(s, e) && Disciplined(c, g, s, e) && Inv(c, g, s)
    ensures Inv(c, g, Next(c, s, e))
  {
    StoreInvEvent(c, g, s, e);
    StoreKeptEvent(c, g, s, e);
    DistinctTimesStep(c, s, e);
    CoverageStep(c, g, s, e);
  }

  lemma {:induction false} InvHolds(c: Codec, g: Goal, states: seq<System>, events: seq<Event>)
    requires c.Sound() && DisciplinedRun(c, g, states, events) && Inv(c, g, states[0])
    ensures Inv(c, g, states[|events|])
    decreases |events|
  {
    if events != [] {
      var n := |events| - 1;
      RunPrefix(c, true, states, events);
      InvHolds(c, g, states[..n + 1], events[..n]);
      InvStep(c, g, states[n], events[n]);
    }
  }

  /** Nothing is queued, running or waiting in the kernel. */
  predicate Quiescent(s: System) {
    s.phase.Idle? && s.Free() && s.tasks == []
    && forall i :: 0 <= i < |s.sources| ==> !s.sources[i].closed ==> !s.sources[i].pending
  }

  /** Files of decodable text, a database that has ingested nothing, nobody reading, no watcher yet. */
  ghost predicate FirstLaunch(c: Codec, s: System) {
    Initial(s) && Fresh(s.ingest) && DistinctTimes(s) && forall path <- s.Files() :: c.decodes(s.Files()[path])
  }

  lemma {:induction false} FirstLaunchInv(c: Codec, g: Goal, s: System)
    requires c.Sound() && FirstLaunch(c, s)
    ensures Inv(c, g, s)
  {
    NothingRead(c, s.ingest, "");
    forall p ensures DecodesFrom(c, s.Files(), p, s.ingest.store.db.CursorOf(p))
    {
      assert s.ingest.store.db.CursorOf(p) == 0 && Content(s.Files(), p)[0..] == Content(s.Files(), p);
    }
  }

  /**
   Completeness: after any run - any bursts of new files, growth in the middle of a tail, stale events, late handlers,
   restarts and crashes at any point - in which opens succeed and only the newest session file is written to, a started
   watcher that has settled has read every session file to its end.
   */
  lemma {:induction false} SettledMeansComplete(c: Codec, states: seq<System>, events: seq<Event>)
    requires c.Sound() && DisciplinedRun(c, ToTheEnd, states, events) && FirstLaunch(c, states[0])
    ensures
      var s := states[|events|];
      Started(s) && Quiescent(s) ==> forall p :: Session(s.dir, s.Files(), p) ==> FullyRead(s.ingest.store, p)
  {
    FirstLaunchInv(c, ToTheEnd, states[0]);
    InvHolds(c, ToTheEnd, states, events);
  }

  // ---------------------------------------------------------------------------------------------------
  // Any number of readers
  // ---------------------------------------------------------------------------------------------------

  /** Every tail of the run that reads something finds the file ending with a whole line. */
  ghost predicate ReadsWholeLines(c: Codec, states: seq<System>, events: seq<Event>)
    requires |states| == |events| + 1
  {
    forall i :: 0 <= i < |events| && events[i].TailStep? ==> ReadsWhole(c, states[i].ingest, events[i].step)
  }

  lemma {:induction false} EarlierReadsWhole(c: Codec, states: seq<System>, events: seq<Event>)
    requires |states| == |events| + 1 && events != [] && ReadsWholeLines(c, states, events)
    ensures ReadsWholeLines(c, states[..|events|], events[..|events| - 1])
  {
    var n := |events| - 1;
    forall i | 0 <= i < n && events[..n][i].TailStep?
      ensures ReadsWhole(c, states[..n + 1][i].ingest, events[..n][i].step)
    {
      assert states[..n + 1][i] == states[i] && events[..n][i] == events[i];
    }
  }

  /** The store step of an event, if it reads, is that of a tail. */
  lemma {:induction false} EventReadsWhole(c: Codec, s: System, e: Event)
    requires Enabled(s, e) && (e.TailStep? ==> ReadsWhole(c, s.ingest, e.step))
    ensures forall step <- StoreSteps(true, s, e) :: ReadsWhole(c, s.ingest, step)
  {
    forall step | step in StoreSteps(true, s, e) ensures ReadsWhole(c, s.ingest, step)
    {
      if step.ReadFile? {
        assert e.TailStep? && step == e.step;
      }
    }
  }

  lemma {:induction false} WholeReadsSnoc(c: Codec, i: Ingest, before: seq<Step>, step: Step)
    requires WholeReads(c, i, before) && ReadsWhole(c, Run(c, i, before), step)
    ensures WholeReads(c, i, before + [step])
  {
    var more := before + [step];
    assert more[..|more| - 1] == before && more[|more| - 1] == step;
  }

  lemma {:induction false} WholeReadsMore(c: Codec, i: Ingest, before: seq<Step>, more: seq<Step>)
    requires WholeReads(c, i, before) && |more| <= 1
    requires forall step <- more :: ReadsWhole(c, Run(c, i, before), step)
    ensures WholeReads(c, i, before + more)
  {
    if more == [] {
      assert before + more == before;
    } else {
      assert more == [more[0]] && more[0] in more;
      WholeReadsSnoc(c, i, before, more[0]);
    }
  }

  lemma {:induction false} StepsReadWhole(c: Codec, states: seq<System>, events: seq<Event>)
    requires IsRun(c, states, events) && ReadsWholeLines(c, states, events)
    ensures WholeReads(c, states[0].ingest, AllStoreSteps(c, true, states, events))
    decreases |events|
  {
    if events != [] {
      var n := |events| - 1;
      RunPrefix(c, true, states, events);
      EarlierReadsWhole(c, states, events);
      StepsReadWhole(c, states[..n + 1], events[..n]);
      WatcherRefinesIngest(c, true, states[..n + 1], events[..n]);
      OneStepAtMost(true, states[n], events[n]);
      EventReadsWhole(c, states[n], events[n]);
      WholeReadsMore(c, states[0].ingest, AllStoreSteps(c, true, states[..n + 1], events[..n]),
                     StoreSteps(true, states[n], events[n]));
    }
  }

  /**
   Completeness beside any number of other readers: in a run of one watcher during which the watchers of other panes
   tail the same files whenever they like, and in which reads find whole lines, opens succeed and only the newest
   session file is written to, a started watcher that has settled leaves every usage line of every session file in both
   tables. And unless tails of a file overlapped or a crash left rows of it ahead of the cursor, the rows written for it
   are its usage lines, each exactly once and in order.
   */
  lemma {:induction false} SettledMeansRecorded(c: Codec, states: seq<System>, events: seq<Event>, p: string)
    requires c.Sound() && DisciplinedRun(c, EveryLine, states, events) && FirstLaunch(c, states[0])
    requires Started(states[|events|]) && Quiescent(states[|events|])
    requires Session(states[|events|].dir, states[|events|].Files(), p)
    ensures
      var s, steps := states[|events|], AllStoreSteps(c, true, states, events);
      var text := Content(s.Files(), p);
      && LinesRecorded(c, s.ingest.store, p)
      && (HarmfulCrashes(c, states[0].ingest, steps, p) == 0 && Overlaps(c, states[0].ingest, steps, p) == 0
          && OnPath(s.ingest.tails, p) == {} ==>
            Recorded(s.ingest.store.View().tokens, p) == UsageLines(c, text, 0, |text|))
  {
    var s, steps := states[|events|], AllStoreSteps(c, true, states, events);
    FirstLaunchInv(c, EveryLine, states[0]);
    InvHolds(c, EveryLine, states, events);
    WatcherRefinesIngest(c, true, states, events);
    DisciplineReadsWhole(c, states, events);
    StepsReadWhole(c, states, events);
    IngestInvariant(c, states[0].ingest, steps, p);
    SettledIsRecorded(c, s, p);
    if ExactlyOnce(c, s.ingest, p) && OnPath(s.ingest.tails, p) == {} {
      AllOnce(c, s.ingest, p);
    }
  }

  lemma {:induction false} SettledIsRecorded(c: Codec, s: System, p: string)
    requires Inv(c, EveryLine, s) && Started(s) && Quiescent(s) && Session(s.dir, s.Files(), p)
    ensures LinesRecorded(c, s.ingest.store, p)
  {
  }

  lemma {:induction false} DisciplineReadsWhole(c: Codec, states: seq<System>, events: seq<Event>)
    requires DisciplinedRun(c, EveryLine, states, events)
    ensures ReadsWholeLines(c, states, events)
  {
    forall i | 0 <= i < |events| && events[i].TailStep? ensures ReadsWhole(c, states[i].ingest, events[i].step)
    {
      assert Disciplined(c, EveryLine, states[i], events[i]);
    }
  }

  /** Recorded once up to the cursor, and every line recorded: then the cursor is behind the last line. */
  lemma {:induction false} AllOnce(c: Codec, i: Ingest, p: string)
    requires !c.usage("") && CoverageInv(c, i) && ExactlyOnce(c, i, p) && OnPath(i.tails, p) == {}
    requires LinesRecorded(c, i.store, p)
    ensures var text := Content(i.store.files, p);
      Recorded(i.store.View().tokens, p) == UsageLines(c, text, 0, |text|)
  {
    var v, text := i.store.View(), Content(i.store.files, p);
    var all := UsageLines(c, text, 0, |text|);
    OnceIsPrefix(c, i, p);
    UsageLinesAscend(c, text, 0, |text|);
    forall l | l in all ensures l in Recorded(v.tokens, p)
    {
      assert RecordedIn(v, p, l);
      RecordedHas(v.tokens, p, l);
    }
    NotLonger(Recorded(v.tokens, p), all, all, |text|);
  }

  /**
   The whole contract of a watcher that is the only reader, as long as its reads find whole lines: when it has settled,
   each usage line of each session file is in both tables; and unless a crash left rows ahead of the cursor, the rows
   written for a file are its usage lines, each exactly once and in order.
   */
  lemma {:induction false} SettledMeansIngestedOnce(c: Codec, states: seq<System>, events: seq<Event>, p: string)
    requires c.Sound() && DisciplinedRun(c, ToTheEnd, states, events) && FirstLaunch(c, states[0])
    requires ReadsWholeLines(c, states, events)
    requires Started(states[|events|]) && Quiescent(states[|events|])
    requires Session(states[|events|].dir, states[|events|].Files(), p)
    ensures
      var s, steps := states[|events|], AllStoreSteps(c, true, states, events);
      var text := Content(s.Files(), p);
      && LinesRecorded(c, s.ingest.store, p)
      && (HarmfulCrashes(c, states[0].ingest, steps, p) == 0 ==>
            Recorded(s.ingest.store.View().tokens, p) == UsageLines(c, text, 0, |text|))
  {
    forall i | 0 <= i < |events| ensures Disciplined(c, EveryLine, states[i], events[i])
    {
      assert Disciplined(c, ToTheEnd, states[i], events[i]);
    }
    OneReaderOnly(c, states, events, p);
    assert OnPath(states[|events|].ingest.tails, p) == {};
    SettledMeansRecorded(c, states, events, p);
  }

  lemma {:induction false} OneReaderOnly(c: Codec, states: seq<System>, events: seq<Event>, p: string)
    requires DisciplinedRun(c, ToTheEnd, states, events) && OnlyMe(states[0])
    ensures OnlyMe(states[|events|])
    ensures Overlaps(c, states[0].ingest, AllStoreSteps(c, true, states, events), p) == 0
  {
    forall i | 0 <= i < |events| ensures OneReader(states[i], events[i])
    {
      assert Disciplined(c, ToTheEnd, states[i], events[i]);
    }
    NeverOverlaps(c, true, states, events, p);
  }
}
