/** What a crash costs. */
module SessionCrashes {
  // Token rows wait in the queue until the next synchronous call commits them; the cursor that goes with them is stored
  // after all of them. A crash in between leaves rows ahead of the cursor, and their lines are read again.

  import opened SessionLines
  import opened SessionTail
  import opened SessionIngest
  import opened SessionDuplicates
  import opened SessionCoverage
  import opened SessionBlocks
  import opened SessionOverlaps

  // ---------------------------------------------------------------------------------------------------
  // Exactly when a crash is safe
  // ---------------------------------------------------------------------------------------------------

  lemma {:induction false} FinishedIsSafe(c: Codec, i: Ingest, path: string)
    requires !c.usage("") && Within(i) && !RowsAhead(i.store.db, path)
    requires forall r: Row :: r.path == path ==> Accounted(i, r, 0)
    ensures StaysOnce(c, Exec(c, i, Crash), path)
  {
    var t := Exec(c, i, Crash);
    WithinStep(c, i, Crash);
    forall steps, r: Row | CrashFree(steps) && Overlaps(c, t, steps, path) == 0 && r.path == path
      ensures Copies(Run(c, t, steps).store.View(), r) <= 1
    {
      AccountedStep(c, i, Crash, r, 0);
      NothingLost(c, t, steps, path);
      AccountedRun(c, t, steps, r, 0);
      AccountBoundsCopies(Run(c, t, steps), r, 0);
    }
  }

  /** A complete line at or behind a place is found by a read from there. */
  lemma {:induction false} ReadFinds(c: Codec, files: map<string, string>, path: string, cursor: nat, l: Line)
    requires DecodesAll(c) && Terminated(c, Content(files, path), l) && cursor <= l.offset
    ensures var window := Read(c, files, path, cursor); window.Window? && l in window.lines
  {
    var text, stop := Content(files, path), l.offset + |l.text|;
    assert forall j :: l.offset <= j < stop ==> text[j] == l.text[j - l.offset] && l.text[j - l.offset] in l.text;
    NextNewlineIs(text, l.offset, |text|, stop);
    UsageLinesExactly(c, text, cursor, |text|, l);
  }

  /** The next tail records a row that was ahead of the cursor once more. */
  lemma {:induction false} RowIsReadAgain(c: Codec, i: Ingest, r: Row) returns (steps: seq<Step>)
    requires DecodesAll(c) && i.tails == map[] && i.store.queue == [] && r in i.store.db.tokens
    requires Terminated(c, Content(i.store.files, r.path), r.line) && i.store.db.CursorOf(r.path) <= r.line.offset
    ensures CrashFree(steps) && Overlaps(c, i, steps, r.path) == 0
    ensures Copies(Run(c, i, steps).store.View(), r) >= 2
  {
    var b := Begin(0, r.path);
    var begun := Run(c, i, [b]);
    RunOne(c, i, b);
    ViewAfter(c, i, b);
    ReadFinds(c, i.store.files, r.path, i.store.db.CursorOf(r.path), r.line);
    var rest := BegunFinishes(c, begun, 0, r.line);
    steps := [b] + rest;
    RunAppend(c, i, [b], rest);
    OverlapsAppend(c, i, [b], rest, r.path);
    OneOverlap(c, i, b, r.path);
    NoOverlap(c, begun, rest, r.path);
    assert OnPath(map[], r.path) == {};
    assert Copies(i.store.View(), r) >= 1;
  }

  lemma {:induction false} AheadIsReadAgain(c: Codec, i: Ingest, path: string)
    requires DecodesAll(c) && CoverageInv(c, i) && RowsAhead(i.store.db, path)
    ensures !StaysOnce(c, Exec(c, i, Crash), path)
  {
    var r :| r in i.store.db.tokens && r.path == path && i.store.db.CursorOf(path) <= r.line.offset;
    SyncExtends(i.store);
    assert r in i.store.View().tokens;
    var steps := RowIsReadAgain(c, Exec(c, i, Crash), r);
    assert CrashFree(steps) && Overlaps(c, Exec(c, i, Crash), steps, path) == 0;
  }

  /** Where the rows of a file are accounted for, a crash is safe if and only if none of them is ahead of the cursor. */
  lemma {:induction false} CrashIsSafeExactly(c: Codec, i: Ingest, path: string)
    requires !c.usage("") && DecodesAll(c) && Within(i) && CoverageInv(c, i)
    requires forall r: Row :: r.path == path ==> Accounted(i, r, 0)
    ensures StaysOnce(c, Exec(c, i, Crash), path) <==> !RowsAhead(i.store.db, path)
  {
    if RowsAhead(i.store.db, path) {
      AheadIsReadAgain(c, i, path);
    } else {
      FinishedIsSafe(c, i, path);
    }
  }

  /**
   Exactly once across a restart: after any run that found whole lines and in which nothing has been recorded twice
   yet - no tails of the file overlapped, and no crash left rows of it ahead of the cursor - the next crash is safe,
   through whatever follows short of another one or of overlapping tails, if and only if it finds no row ahead of the
   cursor.
   */
  lemma {:induction false} RestartIsSafeExactly(c: Codec, i: Ingest, steps: seq<Step>, path: string)
    requires !c.usage("") && DecodesAll(c) && Fresh(i) && WholeReads(c, i, steps)
    requires Overlaps(c, i, steps, path) == 0 && HarmfulCrashes(c, i, steps, path) == 0
    ensures var t := Run(c, i, steps);
      StaysOnce(c, Exec(c, t, Crash), path) <==> !RowsAhead(t.store.db, path)
  {
    var t := Run(c, i, steps);
    IngestInvariant(c, i, steps, path);
    forall r: Row | r.path == path ensures Accounted(t, r, 0)
    {
      NothingCounted(i, r);
      AccountedRun(c, i, steps, r, 0);
    }
    CrashIsSafeExactly(c, t, path);
  }

  // ---------------------------------------------------------------------------------------------------
  // A crash that duplicates
  // ---------------------------------------------------------------------------------------------------

  /** A tail that dies behind its first line, and the tail of the next process. */
  function CrashedTail(c: Codec, files: map<string, string>, path: string): seq<Step> {
    [Begin(0, path), ReadFile(0), EnqueueToken(0), WriteTrace(0)] + [Crash] + [Begin(0, path)]
      + RestOfTail(c, files, path, 0, 0)
  }

  /** The first line written, and the process gone. */
  function FirstLineOnly(s: Store, path: string, l: Line): Store {
    s.(db := Db([Row(path, l)], {l}, map[]))
  }

  lemma {:induction false} OnlyRow(s: Store, path: string, l: Line)
    requires s.db == Db([], {}, map[]) && s.queue == []
    ensures s.Enqueued(Token(Row(path, l))).Traced(l) == FirstLineOnly(s, path, l)
  {
    Views(s, Token(Row(path, l)), l);
    var t := s.Enqueued(Token(Row(path, l)));
    assert s.View() == s.db;
    assert t.View() == Db([Row(path, l)], {}, map[]) by {
      assert [] + [Row(path, l)] == [Row(path, l)];
    }
    assert {} + {l} == {l};
  }

  lemma {:induction false} FirstLineWritten(c: Codec, i: Ingest, path: string)
    requires Fresh(i) && Read(c, i.store.files, path, 0).Window? && Read(c, i.store.files, path, 0).lines != []
    ensures var lines, end := Read(c, i.store.files, path, 0).lines, Read(c, i.store.files, path, 0).end;
      Run(c, i, [Begin(0, path), ReadFile(0), EnqueueToken(0), WriteTrace(0)])
        == Ingest(FirstLineOnly(i.store, path, lines[0]), map[0 := Emitting(path, 0, end, lines, 1, false)])
  {
    var window := Read(c, i.store.files, path, 0);
    var begun := Ingest(i.store, map[0 := Begun(path, 0)]);
    var read := Ingest(i.store, map[0 := Emitting(path, 0, window.end, window.lines, 0, false)]);
    assert [Begin(0, path), ReadFile(0), EnqueueToken(0), WriteTrace(0)]
        == [Begin(0, path)] + [ReadFile(0)] + [EnqueueToken(0)] + [WriteTrace(0)];
    assert Exec(c, i, Begin(0, path)) == begun;
    assert Exec(c, begun, ReadFile(0)) == read;
    OneLine(c, read, 0);
    OnlyRow(i.store, path, window.lines[0]);
    FourSteps(c, i, Begin(0, path), ReadFile(0), EnqueueToken(0), WriteTrace(0));
  }

  lemma {:induction false} FourSteps(c: Codec, i: Ingest, w: Step, x: Step, y: Step, z: Step)
    ensures Run(c, i, [w] + [x] + [y] + [z]) == Exec(c, Exec(c, Exec(c, Exec(c, i, w), x), y), z)
  {
    RunOne(c, i, w);
    RunSnoc(c, i, [w], x);
    RunSnoc(c, i, [w] + [x], y);
    RunSnoc(c, i, [w] + [x] + [y], z);
  }

  /** One reader, a crash behind the first line of a session, a restart: that line is recorded twice. */
  lemma {:induction false} CrashRecordsTwice(c: Codec, i: Ingest, path: string)
    requires !c.usage("") && Fresh(i)
    requires Read(c, i.store.files, path, 0).Window? && Read(c, i.store.files, path, 0).lines != []
    ensures var steps, l := CrashedTail(c, i.store.files, path), Read(c, i.store.files, path, 0).lines[0];
      && Overlaps(c, i, steps, path) == 0
      && Copies(Run(c, i, steps).store.View(), Row(path, l)) == 2
  {
    var l := Read(c, i.store.files, path, 0).lines[0];
    var s := FirstLineOnly(i.store, path, l);
    CrashedTailRuns(c, i, path);
    FinishedOnceMore(c, s, path, l);
    assert Copies(s.View(), Row(path, l)) == 1;
    NeverTwoAtOnce(c, i, path);
  }

  lemma {:induction false} CrashedTailRuns(c: Codec, i: Ingest, path: string)
    requires Fresh(i) && Read(c, i.store.files, path, 0).Window? && Read(c, i.store.files, path, 0).lines != []
    ensures var s := FirstLineOnly(i.store, path, Read(c, i.store.files, path, 0).lines[0]);
      Run(c, i, CrashedTail(c, i.store.files, path)) == Ingest(Finished(c, s, path, 0), map[])
  {
    var s := FirstLineOnly(i.store, path, Read(c, i.store.files, path, 0).lines[0]);
    var first := [Begin(0, path), ReadFile(0), EnqueueToken(0), WriteTrace(0)];
    FirstLineWritten(c, i, path);
    RunSnoc(c, i, first, Crash);
    RunSnoc(c, i, first + [Crash], Begin(0, path));
    RunAppend(c, i, first + [Crash] + [Begin(0, path)], RestOfTail(c, i.store.files, path, 0, 0));
    NextProcessReads(c, s, path);
  }

  lemma {:induction false} NextProcessReads(c: Codec, s: Store, path: string)
    requires s.queue == [] && s.db.cursors == map[]
    ensures Run(c, Exec(c, Ingest(s, map[]), Begin(0, path)), RestOfTail(c, s.files, path, 0, 0))
         == Ingest(Finished(c, s, path, 0), map[])
  {
    assert s.Synced() == s;
    RestRuns(c, Ingest(s, map[0 := Begun(path, 0)]), 0);
  }

  lemma {:induction false} OverlapsSnoc(c: Codec, i: Ingest, a: seq<Step>, step: Step, path: string)
    requires step.Begin? ==> Run(c, i, a).tails == map[]
    ensures Overlaps(c, i, a + [step], path) == Overlaps(c, i, a, path)
  {
    OverlapsAppend(c, i, a, [step], path);
    OneOverlap(c, Run(c, i, a), step, path);
  }

  lemma {:induction false} NeverTwoAtOnce(c: Codec, i: Ingest, path: string)
    requires Fresh(i)
    ensures Overlaps(c, i, CrashedTail(c, i.store.files, path), path) == 0
  {
    var four := [Begin(0, path), ReadFile(0), EnqueueToken(0), WriteTrace(0)];
    var rest := RestOfTail(c, i.store.files, path, 0, 0);
    FourNeverOverlap(c, i, path);
    OverlapsSnoc(c, i, four, Crash, path);
    RunSnoc(c, i, four, Crash);
    OverlapsSnoc(c, i, four + [Crash], Begin(0, path), path);
    RestIsQuiet(c, i.store.files, path, 0, 0);
    OverlapsAppend(c, i, four + [Crash] + [Begin(0, path)], rest, path);
    NoOverlap(c, Run(c, i, four + [Crash] + [Begin(0, path)]), rest, path);
  }

  lemma {:induction false} FourNeverOverlap(c: Codec, i: Ingest, path: string)
    requires Fresh(i)
    ensures Overlaps(c, i, [Begin(0, path), ReadFile(0), EnqueueToken(0), WriteTrace(0)], path) == 0
  {
    var later := [ReadFile(0), EnqueueToken(0), WriteTrace(0)];
    OverlapsAppend(c, i, [Begin(0, path)], later, path);
    OneOverlap(c, i, Begin(0, path), path);
    NoOverlap(c, Run(c, i, [Begin(0, path)]), later, path);
    assert [Begin(0, path)] + later == [Begin(0, path), ReadFile(0), EnqueueToken(0), WriteTrace(0)];
  }
}
