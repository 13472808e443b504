/** Where exactly once ends. */
module SessionOverlaps {
  // Two tails of one file that overlap, and a tail that finds half a line.

  import opened SessionLines
  import opened SessionTail
  import opened SessionIngest
  import opened SessionDuplicates
  import opened SessionCoverage
  import opened SessionBlocks

  // ---------------------------------------------------------------------------------------------------
  // Runs without crashes and without new tails
  // ---------------------------------------------------------------------------------------------------

  predicate CrashFree(steps: seq<Step>) {
    forall step <- steps :: !step.Crash?
  }

  predicate NoBegin(steps: seq<Step>) {
    forall step <- steps :: !step.Crash? && !step.Begin?
  }

  lemma {:induction false} NothingLost(c: Codec, i: Ingest, steps: seq<Step>, path: string)
    requires CrashFree(steps)
    ensures HarmfulCrashes(c, i, steps, path) == 0
    decreases |steps|
  {
    if steps != [] {
      assert steps[|steps| - 1] in steps;
      NothingLost(c, i, steps[..|steps| - 1], path);
    }
  }

  lemma {:induction false} OverlapsAppend(c: Codec, i: Ingest, a: seq<Step>, b: seq<Step>, path: string)
    ensures Overlaps(c, i, a + b, path) == Overlaps(c, i, a, path) + Overlaps(c, Run(c, i, a), b, path)
    decreases |b|
  {
    if b == [] {
      assert a + b == a;
    } else {
      var front, last := b[..|b| - 1], b[|b| - 1];
      OverlapsAppend(c, i, a, front, path);
      RunAppend(c, i, a, front);
      assert (a + b)[..|a + b| - 1] == a + front;
    }
  }

  lemma {:induction false} NoOverlap(c: Codec, i: Ingest, steps: seq<Step>, path: string)
    requires NoBegin(steps)
    ensures Overlaps(c, i, steps, path) == 0
    decreases |steps|
  {
    if steps != [] {
      assert steps[|steps| - 1] in steps;
      NoOverlap(c, i, steps[..|steps| - 1], path);
    }
  }

  lemma {:induction false} EmitIsQuiet(k: nat, n: nat)
    ensures NoBegin(EmitSteps(k, n))
  {
    if n > 0 {
      EmitIsQuiet(k, n - 1);
    }
  }

  lemma {:induction false} RestIsQuiet(c: Codec, files: map<string, string>, path: string, cursor: nat, k: nat)
    ensures NoBegin(RestOfTail(c, files, path, cursor, k))
  {
    match Read(c, files, path, cursor)
    case Nothing =>
    case Window(lines, _) => EmitIsQuiet(k, |lines|);
  }

  // ---------------------------------------------------------------------------------------------------
  // Tails that finish
  // ---------------------------------------------------------------------------------------------------

  /** A tail under way can finish by itself: its cursor is stored, and no row goes. */
  lemma {:induction false} EmittingFinishes(c: Codec, i: Ingest, k: nat) returns (steps: seq<Step>)
    requires k in i.tails && i.tails[k].Emitting? && TailWithin(i.store.files, i.tails[k])
    ensures NoBegin(steps)
    ensures var t := Run(c, i, steps);
      && t.tails == i.tails - {k} && t.store.files == i.store.files
      && (forall r :: Copies(i.store.View(), r) <= Copies(t.store.View(), r))
      && t.store.View().CursorOf(i.tails[k].path) == i.tails[k].end
  {
    var t := i.tails[k];
    if t.queued {
      var u := Exec(c, i, WriteTrace(k));
      ViewAfter(c, i, WriteTrace(k));
      var rest := UnqueuedFinishes(c, u, k);
      steps := [WriteTrace(k)] + rest;
      RunOne(c, i, WriteTrace(k));
      RunAppend(c, i, [WriteTrace(k)], rest);
      assert u.tails - {k} == i.tails - {k};
    } else {
      steps := UnqueuedFinishes(c, i, k);
    }
  }

  lemma {:induction false} UnqueuedFinishes(c: Codec, i: Ingest, k: nat) returns (steps: seq<Step>)
    requires k in i.tails && i.tails[k].Emitting? && !i.tails[k].queued && i.tails[k].next <= |i.tails[k].lines|
    ensures NoBegin(steps)
    ensures var t := Run(c, i, steps);
      && t.tails == i.tails - {k} && t.store.files == i.store.files
      && (forall r :: Copies(i.store.View(), r) <= Copies(t.store.View(), r))
      && t.store.View().CursorOf(i.tails[k].path) == i.tails[k].end
  {
    var t := i.tails[k];
    var n, left := |t.lines| - t.next, t.lines[t.next..|t.lines|];
    var emitted := Emitted(i.store, t.path, t.lines, t.next, |t.lines|);
    steps := EmitSteps(k, n) + [StoreCursor(k)];
    EmitIsQuiet(k, n);
    EmitRuns(c, i, k, n);
    RunSnoc(c, i, EmitSteps(k, n), StoreCursor(k));
    StoreRuns(c, emitted, i.tails, k, t.(next := |t.lines|));
    EmittedView(i.store, t.path, t.lines, t.next, |t.lines|);
    Views(emitted, Cursor(t.path, t.end), Line(0, ""));
    forall r ensures Copies(i.store.View(), r) <= Copies(emitted.View(), r)
    {
      CopiesConcat(i.store.View().tokens, RowsOf(t.path, left), r);
    }
  }

  lemma {:induction false} CopiesConcat(a: seq<Row>, b: seq<Row>, r: Row)
    ensures multiset(a + b)[r] == multiset(a)[r] + multiset(b)[r]
  {
  }

  lemma {:induction false} RowOfLine(path: string, lines: seq<Line>, l: Line)
    requires l in lines
    ensures multiset(RowsOf(path, lines))[Row(path, l)] >= 1
  {
    var k :| 0 <= k < |lines| && lines[k] == l;
    assert RowsOf(path, lines)[k] == Row(path, l);
    assert Row(path, l) in RowsOf(path, lines);
  }

  /** A tail that has begun can finish, and writes every usage line from its cursor on once more. */
  lemma {:induction false} BegunFinishes(c: Codec, i: Ingest, k: nat, l: Line) returns (steps: seq<Step>)
    requires Can(i, ReadFile(k))
    requires var window := Read(c, i.store.files, i.tails[k].path, i.tails[k].cursor);
      window.Window? && l in window.lines
    ensures NoBegin(steps)
    ensures var t := Run(c, i, steps);
      && t.tails == i.tails - {k} && t.store.files == i.store.files
      && (forall r :: Copies(i.store.View(), r) <= Copies(t.store.View(), r))
      && Copies(t.store.View(), Row(i.tails[k].path, l)) >= Copies(i.store.View(), Row(i.tails[k].path, l)) + 1
      && t.store.View().CursorOf(i.tails[k].path) == |Content(i.store.files, i.tails[k].path)|
  {
    var t := i.tails[k];
    steps := RestOfTail(c, i.store.files, t.path, t.cursor, k);
    RestIsQuiet(c, i.store.files, t.path, t.cursor, k);
    RestRuns(c, i, k);
    FinishedView(c, i.store, t.path, t.cursor);
    var rows := RowsOf(t.path, FinishedLines(c, i.store.files, t.path, t.cursor));
    RowOfLine(t.path, FinishedLines(c, i.store.files, t.path, t.cursor), l);
    forall r ensures multiset(i.store.View().tokens + rows)[r] == Copies(i.store.View(), r) + multiset(rows)[r]
    {
      CopiesConcat(i.store.View().tokens, rows, r);
    }
  }

  // ---------------------------------------------------------------------------------------------------
  // The two-pane run
  // ---------------------------------------------------------------------------------------------------

  lemma {:induction false} RowsOnce(path: string, lines: seq<Line>, from: nat, end: nat, l: Line)
    requires Ascending(lines, from, end) && l in lines
    ensures multiset(RowsOf(path, lines))[Row(path, l)] == 1
    decreases |lines|
  {
    var front, last := lines[..|lines| - 1], lines[|lines| - 1];
    assert RowsOf(path, lines) == RowsOf(path, front) + [Row(path, last)];
    if l == last {
      assert Row(path, l) !in RowsOf(path, front);
    } else {
      assert lines == front + [last];
      RowsOnce(path, front, from, end, l);
    }
  }

  /** Two panes in one directory: both read the cursor, then one after the other reads the file, writes and stores. */
  function TwoPanes(c: Codec, files: map<string, string>, path: string): seq<Step> {
    [Begin(0, path), Begin(1, path)] + RestOfTail(c, files, path, 0, 0) + RestOfTail(c, files, path, 0, 1)
  }

  lemma {:induction false} TwoPanesRun(c: Codec, i: Ingest, path: string)
    requires Fresh(i)
    ensures var once := Finished(c, i.store, path, 0);
      Run(c, i, TwoPanes(c, i.store.files, path)) == Ingest(Finished(c, once, path, 0), map[])
  {
    var files := i.store.files;
    var first, second := RestOfTail(c, files, path, 0, 0), RestOfTail(c, files, path, 0, 1);
    var begun := Ingest(i.store, map[0 := Begun(path, 0), 1 := Begun(path, 0)]);
    BothBegin(c, i, path);
    RunAppendTwo(c, i, [Begin(0, path), Begin(1, path)], first, second);
    FirstRuns(c, begun, path, files);
    FinishedView(c, i.store, path, 0);
    LastRuns(c, Ingest(Finished(c, i.store, path, 0), map[1 := Begun(path, 0)]), path, files);
  }

  lemma {:induction false} FirstRuns(c: Codec, i: Ingest, path: string, files: map<string, string>)
    requires i.tails == map[0 := Begun(path, 0), 1 := Begun(path, 0)] && i.store.files == files
    ensures Run(c, i, RestOfTail(c, files, path, 0, 0))
         == Ingest(Finished(c, i.store, path, 0), map[1 := Begun(path, 0)])
  {
    RestRuns(c, i, 0);
    assert i.tails - {0} == map[1 := Begun(path, 0)];
  }

  /** The other pane's tail, with nobody else left. */
  lemma {:induction false} LastRuns(c: Codec, i: Ingest, path: string, files: map<string, string>)
    requires i.tails == map[1 := Begun(path, 0)] && i.store.files == files
    ensures Run(c, i, RestOfTail(c, files, path, 0, 1)) == Ingest(Finished(c, i.store, path, 0), map[])
  {
    RestRuns(c, i, 1);
    assert i.tails - {1} == map[];
  }

  lemma {:induction false} BothBegin(c: Codec, i: Ingest, path: string)
    requires Fresh(i)
    ensures Run(c, i, [Begin(0, path), Begin(1, path)])
         == Ingest(i.store, map[0 := Begun(path, 0), 1 := Begun(path, 0)])
  {
    assert i.store.Synced() == i.store;
    RunOne(c, i, Begin(0, path));
    RunSnoc(c, i, [Begin(0, path)], Begin(1, path));
    assert [Begin(0, path)] + [Begin(1, path)] == [Begin(0, path), Begin(1, path)];
  }

  /** Without any crash, two panes can record every usage line of a session twice. */
  lemma {:induction false} TwoPanesRecordTwice(c: Codec, i: Ingest, path: string, l: Line)
    requires !c.usage("") && Fresh(i) && Read(c, i.store.files, path, 0).Window?
    requires l in Read(c, i.store.files, path, 0).lines
    ensures var steps := TwoPanes(c, i.store.files, path);
      && CrashFree(steps) && HarmfulCrashes(c, i, steps, path) == 0
      && Copies(Run(c, i, steps).store.View(), Row(path, l)) == 2
  {
    var files := i.store.files;
    var once := Finished(c, i.store, path, 0);
    TwoPanesRun(c, i, path);
    FinishedOnceMore(c, i.store, path, l);
    FinishedOnceMore(c, once, path, l);
    RestIsQuiet(c, files, path, 0, 0);
    RestIsQuiet(c, files, path, 0, 1);
    NothingLost(c, i, TwoPanes(c, files, path), path);
  }

  /** A tail that starts at the beginning adds one copy of each of its lines. */
  lemma {:induction false} FinishedOnceMore(c: Codec, s: Store, path: string, l: Line)
    requires !c.usage("") && Read(c, s.files, path, 0).Window? && l in Read(c, s.files, path, 0).lines
    ensures var t := Finished(c, s, path, 0);
      t.files == s.files && Copies(t.View(), Row(path, l)) == Copies(s.View(), Row(path, l)) + 1
  {
    var text, lines := Content(s.files, path), Read(c, s.files, path, 0).lines;
    FinishedView(c, s, path, 0);
    UsageLinesAscend(c, text, 0, |text|);
    RowsOnce(path, lines, 0, |text|, l);
    CopiesConcat(s.View().tokens, RowsOf(path, lines), Row(path, l));
  }

  // ---------------------------------------------------------------------------------------------------
  // A second tail
  // ---------------------------------------------------------------------------------------------------

  /** Whatever happens next, short of a crash or further overlapping tails, no row of the file is recorded twice. */
  ghost predicate StaysOnce(c: Codec, i: Ingest, path: string) {
    forall steps, r: Row :: CrashFree(steps) && Overlaps(c, i, steps, path) == 0 && r.path == path ==>
      Copies(Run(c, i, steps).store.View(), r) <= 1
  }

  /** At most one tail of the file is under way, and every row of it is accounted for without overlap or loss. */
  ghost predicate OnceSoFar(i: Ingest, path: string) {
    && Within(i) && (forall r: Row :: r.path == path ==> Accounted(i, r, 0))
    && (forall j, k :: j in OnPath(i.tails, path) && k in OnPath(i.tails, path) ==> j == k)
  }

  lemma {:induction false} AloneIsSafe(c: Codec, i: Ingest, reader: nat, path: string)
    requires !c.usage("") && OnceSoFar(i, path) && reader !in i.tails && OnPath(i.tails, path) == {}
    ensures StaysOnce(c, Exec(c, i, Begin(reader, path)), path)
  {
    var b := Exec(c, i, Begin(reader, path));
    WithinStep(c, i, Begin(reader, path));
    forall steps, r: Row | CrashFree(steps) && Overlaps(c, b, steps, path) == 0 && r.path == path
      ensures Copies(Run(c, b, steps).store.View(), r) <= 1
    {
      AccountedStep(c, i, Begin(reader, path), r, 0);
      NothingLost(c, b, steps, path);
      AccountedRun(c, b, steps, r, 0);
      AccountBoundsCopies(Run(c, b, steps), r, 0);
    }
  }

  /** A file grows by a line of its own. */
  function NewLine(u: string): string {
    "\n" + u + "\n"
  }

  lemma {:induction false} NewLineIsRead(c: Codec, text: string, u: string, cursor: nat)
    requires c.usage(u) && '\n' !in u && cursor <= |text|
    ensures Line(|text| + 1, u) in UsageLines(c, text + NewLine(u), cursor, |text + NewLine(u)|)
  {
    var longer := text + NewLine(u);
    var start := |text| + 1;
    NewLineStands(text, u);
    NextNewlineIs(longer, start, |longer|, start + |u|);
    UsageLinesExactly(c, longer, cursor, |longer|, Line(start, u));
  }

  lemma {:induction false} NewLineStands(text: string, u: string)
    requires '\n' !in u
    ensures var longer, start := text + NewLine(u), |text| + 1;
      && |longer| == start + |u| + 1 && longer[start..start + |u|] == u
      && longer[start - 1] == '\n' && longer[start + |u|] == '\n'
      && forall j :: start <= j < start + |u| ==> longer[j] != '\n'
  {
    var longer, start := text + NewLine(u), |text| + 1;
    assert forall j :: start <= j < start + |u| ==> longer[j] == u[j - start] && u[j - start] in u;
  }

  ghost predicate DecodesAll(c: Codec) {
    forall t :: c.decodes(t)
  }

  /** What a reader finds in a file that has grown by a line. */
  ghost predicate HasNewLine(c: Codec, files: map<string, string>, path: string, size: nat, l: Line) {
    forall cursor: nat :: cursor <= size ==>
      Read(c, files, path, cursor).Window? && l in Read(c, files, path, cursor).lines
      && cursor <= |Content(files, path)|
  }

  lemma {:induction false} GrowsByLine(c: Codec, i: Ingest, path: string, u: string)
    requires Within(i)
    ensures var t := Exec(c, i, Append(path, NewLine(u)));
      && t.tails == i.tails && t.store.View() == i.store.View() && Within(t)
      && t.store.files == i.store.files[path := Content(i.store.files, path) + NewLine(u)]
  {
    ViewAfter(c, i, Append(path, NewLine(u)));
    WithinAppend(i.store.files, path, NewLine(u), i);
  }

  lemma {:induction false} LineAppears(c: Codec, i: Ingest, path: string, u: string)
    requires DecodesAll(c) && c.usage(u) && '\n' !in u
    ensures var text, t := Content(i.store.files, path), Exec(c, i, Append(path, NewLine(u)));
      HasNewLine(c, t.store.files, path, |text|, Line(|text| + 1, u))
  {
    LineIsNew(c, i.store.files, path, u);
  }

  lemma {:induction false} LineIsNew(c: Codec, files: map<string, string>, path: string, u: string)
    requires DecodesAll(c) && c.usage(u) && '\n' !in u
    ensures var text := Content(files, path);
      HasNewLine(c, files[path := text + NewLine(u)], path, |text|, Line(|text| + 1, u))
  {
    var text := Content(files, path);
    forall cursor: nat | cursor <= |text|
      ensures Line(|text| + 1, u) in UsageLines(c, text + NewLine(u), cursor, |text + NewLine(u)|)
    {
      NewLineIsRead(c, text, u, cursor);
    }
  }

  /** A tail that has begun at or before the old end writes the new line once more, and ends. */
  lemma {:induction false} NewLineWritten(c: Codec, i: Ingest, k: nat, path: string, size: nat, l: Line)
                                          returns (steps: seq<Step>)
    requires Can(i, ReadFile(k)) && i.tails[k].path == path && i.tails[k].cursor <= size
    requires HasNewLine(c, i.store.files, path, size, l)
    ensures NoBegin(steps)
    ensures var t := Run(c, i, steps);
      && t.tails == i.tails - {k} && t.store.files == i.store.files
      && Copies(t.store.View(), Row(path, l)) >= Copies(i.store.View(), Row(path, l)) + 1
  {
    steps := BegunFinishes(c, i, k, l);
  }

  /** Two tails that have both begun before a line is written both write it. */
  lemma {:induction false} BothBegun(c: Codec, i: Ingest, j: nat, k: nat, path: string, u: string)
                                     returns (steps: seq<Step>)
    requires DecodesAll(c) && c.usage(u) && '\n' !in u && j != k && Within(i)
    requires j in i.tails && i.tails[j].Begun? && i.tails[j].path == path
    requires k in i.tails && i.tails[k].Begun? && i.tails[k].path == path
    ensures NoBegin(steps)
    ensures Copies(Run(c, i, steps).store.View(), Row(path, Line(|Content(i.store.files, path)| + 1, u))) >= 2
  {
    var size, a := |Content(i.store.files, path)|, [Append(path, NewLine(u))];
    assert TailWithin(i.store.files, i.tails[j]) && TailWithin(i.store.files, i.tails[k]);
    GrowsByLine(c, i, path, u);
    LineAppears(c, i, path, u);
    RunOne(c, i, a[0]);
    var grown := Run(c, i, a);
    var first := NewLineWritten(c, grown, j, path, size, Line(size + 1, u));
    var half := Run(c, grown, first);
    var second := NewLineWritten(c, half, k, path, size, Line(size + 1, u));
    steps := a + first + second;
    RunAppendTwo(c, i, a, first, second);
  }

  /**
   A tail that began first and stores last moves the cursor back: what the other tail has read in the meantime is read
   once more.
   */
  lemma {:induction false} CursorMovesBack(c: Codec, i: Ingest, j: nat, k: nat, path: string, u: string)
                                           returns (steps: seq<Step>)
    requires DecodesAll(c) && c.usage(u) && '\n' !in u && j != k && Within(i)
    requires j in i.tails && i.tails[j].Emitting? && i.tails[j].path == path
    requires k in i.tails && i.tails[k].Begun? && i.tails[k].path == path
    requires OnPath(i.tails, path) == {j, k}
    ensures CrashFree(steps) && Overlaps(c, i, steps, path) == 0
    ensures Copies(Run(c, i, steps).store.View(), Row(path, Line(|Content(i.store.files, path)| + 1, u))) >= 2
  {
    var size, a := |Content(i.store.files, path)|, [Append(path, NewLine(u))];
    assert TailWithin(i.store.files, i.tails[j]) && TailWithin(i.store.files, i.tails[k]);
    GrowsByLine(c, i, path, u);
    LineAppears(c, i, path, u);
    RunOne(c, i, a[0]);
    var grown := Run(c, i, a);
    var rest := FasterThenSlower(c, grown, j, k, path, size, Line(size + 1, u));
    steps := a + rest;
    RunAppend(c, i, a, rest);
    OverlapsAppend(c, i, a, rest, path);
    NoOverlap(c, i, a, path);
  }

  lemma {:induction false} FasterThenSlower(c: Codec, i: Ingest, j: nat, k: nat, path: string, size: nat, l: Line)
                                            returns (steps: seq<Step>)
    requires j in i.tails && i.tails[j].Emitting? && i.tails[j].path == path && i.tails[j].end <= size && Within(i)
    requires Can(i, ReadFile(k)) && i.tails[k].path == path && i.tails[k].cursor <= size && j != k
    requires OnPath(i.tails, path) == {j, k} && HasNewLine(c, i.store.files, path, size, l)
    ensures CrashFree(steps) && Overlaps(c, i, steps, path) == 0
    ensures Copies(Run(c, i, steps).store.View(), Row(path, l)) >= 2
  {
    var first := NewLineWritten(c, i, k, path, size, l);
    var half := Run(c, i, first);
    assert TailWithin(i.store.files, i.tails[j]);
    assert OnPath(half.tails, path) == OnPath(i.tails, path) - {k};
    var second := StoresLast(c, half, j, k, path, size, l);
    steps := first + second;
    RunAppend(c, i, first, second);
    OverlapsAppend(c, i, first, second, path);
    NoOverlap(c, i, first, path);
  }

  /** The slower tail stores its cursor, and the next one reads the line again. */
  lemma {:induction false} StoresLast(c: Codec, i: Ingest, j: nat, k: nat, path: string, size: nat, l: Line)
                                      returns (steps: seq<Step>)
    requires j in i.tails && i.tails[j].Emitting? && i.tails[j].path == path && TailWithin(i.store.files, i.tails[j])
    requires k !in i.tails && OnPath(i.tails, path) == {j} && i.tails[j].end <= size
    requires HasNewLine(c, i.store.files, path, size, l)
    ensures CrashFree(steps) && Overlaps(c, i, steps, path) == 0
    ensures Copies(Run(c, i, steps).store.View(), Row(path, l)) >= Copies(i.store.View(), Row(path, l)) + 1
  {
    var first := EmittingFinishes(c, i, j);
    var back := Run(c, i, first);
    assert OnPath(back.tails, path) == OnPath(i.tails, path) - {j};
    var second := ReadsAgain(c, back, k, path, size, l);
    steps := first + second;
    RunAppend(c, i, first, second);
    OverlapsAppend(c, i, first, second, path);
    NoOverlap(c, i, first, path);
  }

  /** With nobody else reading, a reader begins where the cursor stands and writes the line. */
  lemma {:induction false} ReadsAgain(c: Codec, i: Ingest, k: nat, path: string, size: nat, l: Line)
                                      returns (steps: seq<Step>)
    requires k !in i.tails && OnPath(i.tails, path) == {} && i.store.View().CursorOf(path) <= size
    requires HasNewLine(c, i.store.files, path, size, l)
    ensures CrashFree(steps) && Overlaps(c, i, steps, path) == 0
    ensures Copies(Run(c, i, steps).store.View(), Row(path, l)) >= Copies(i.store.View(), Row(path, l)) + 1
  {
    var b := Begin(k, path);
    var begun := Run(c, i, [b]);
    RunOne(c, i, b);
    ViewAfter(c, i, b);
    var rest := NewLineWritten(c, begun, k, path, size, l);
    steps := [b] + rest;
    RunAppend(c, i, [b], rest);
    OverlapsAppend(c, i, [b], rest, path);
    OneOverlap(c, i, b, path);
    NoOverlap(c, begun, rest, path);
  }

  lemma {:induction false} OneOverlap(c: Codec, i: Ingest, step: Step, path: string)
    ensures Overlaps(c, i, [step], path) == if IsOverlap(i, step, path) then 1 else 0
  {
    assert [step][..0] == [];
  }

  /**
   Exactly once survives the start of a tail, through whatever follows short of a crash or yet another overlapping
   tail, if and only if no other tail of the file is under way.
   */
  lemma {:induction false} SecondTailIsSafeExactly(c: Codec, i: Ingest, reader: nat, path: string, u: string)
    requires !c.usage("") && DecodesAll(c) && c.usage(u) && '\n' !in u
    requires OnceSoFar(i, path) && reader !in i.tails
    ensures StaysOnce(c, Exec(c, i, Begin(reader, path)), path) <==> OnPath(i.tails, path) == {}
  {
    if OnPath(i.tails, path) == {} {
      AloneIsSafe(c, i, reader, path);
    } else {
      var j :| j in OnPath(i.tails, path);
      var b := Exec(c, i, Begin(reader, path));
      WithinStep(c, i, Begin(reader, path));
      assert OnPath(b.tails, path) == {j, reader} by {
        assert OnPath(i.tails, path) == {j};
      }
      var steps: seq<Step>;
      if i.tails[j].Begun? {
        steps := BothBegun(c, b, j, reader, path, u);
        NoOverlap(c, b, steps, path);
      } else {
        steps := CursorMovesBack(c, b, j, reader, path, u);
      }
      assert CrashFree(steps) && Overlaps(c, b, steps, path) == 0;
      assert !StaysOnce(c, b, path);
    }
  }

  // ---------------------------------------------------------------------------------------------------
  // Half a line
  // ---------------------------------------------------------------------------------------------------

  function Grown(s: Store, path: string, data: string): Store {
    s.(files := s.files[path := Content(s.files, path) + data])
  }

  /** Two tails, with more text written between them. */
  function TwoTails(c: Codec, s: Store, path: string, data: string): Store {
    Tailed(c, Grown(Tailed(c, s, path), path, data), path)
  }

  lemma {:induction false} RecordedRows(tokens: seq<Row>, path: string, lines: seq<Line>)
    ensures Recorded(tokens + RowsOf(path, lines), path) == Recorded(tokens, path) + lines
    decreases |lines|
  {
    if lines == [] {
      assert tokens + RowsOf(path, lines) == tokens;
    } else {
      var front, last := lines[..|lines| - 1], lines[|lines| - 1];
      RecordedRows(tokens, path, front);
      RecordedRow(tokens, path, front, last);
      assert lines == front + [last];
    }
  }

  lemma {:induction false} RowsSnoc(path: string, front: seq<Line>, last: Line)
    ensures RowsOf(path, front + [last]) == RowsOf(path, front) + [Row(path, last)]
  {
  }

  lemma {:induction false} RecordedRow(tokens: seq<Row>, path: string, front: seq<Line>, last: Line)
    requires Recorded(tokens + RowsOf(path, front), path) == Recorded(tokens, path) + front
    ensures Recorded(tokens + RowsOf(path, front + [last]), path) == Recorded(tokens, path) + (front + [last])
  {
    RowsSnoc(path, front, last);
    AppendAssoc(tokens, RowsOf(path, front), [Row(path, last)]);
    RecordedSnoc(tokens + RowsOf(path, front), Row(path, last), path);
    AppendAssoc(Recorded(tokens, path), front, [last]);
  }

  lemma {:induction false} FirstTail(c: Codec, s: Store, path: string)
    requires !c.usage("") && DecodesAll(c) && s.db == Db([], {}, map[]) && s.queue == [] && path in s.files
    ensures var t, text := Tailed(c, s, path), s.files[path];
      t.files == s.files && t.View().CursorOf(path) == |text|
        && Recorded(t.View().tokens, path) == UsageLines(c, text, 0, |text|)
  {
    TailedView(c, s, path);
    var lines := FinishedLines(c, s.files, path, 0);
    RecordedRows([], path, lines);
    assert [] + RowsOf(path, lines) == RowsOf(path, lines);
    assert s.files[path][0..0] == "";
  }

  /** What two tails record of a file that grew between them. */
  lemma {:induction false} TwoTailsRecord(c: Codec, s: Store, path: string, data: string)
    requires !c.usage("") && DecodesAll(c) && s.db == Db([], {}, map[]) && s.queue == [] && path in s.files
    ensures var text, longer := s.files[path], s.files[path] + data;
      Recorded(TwoTails(c, s, path, data).View().tokens, path)
        == UsageLines(c, text, 0, |text|) + UsageLines(c, longer, |text|, |longer|)
  {
    var text, longer := s.files[path], s.files[path] + data;
    var t := Tailed(c, s, path);
    var g := Grown(t, path, data);
    FirstTail(c, s, path);
    assert g.View() == t.View() && g.files[path] == longer;
    TailedView(c, g, path);
    var lines := FinishedLines(c, g.files, path, |text|);
    RecordedRows(t.View().tokens, path, lines);
    assert longer[|longer|..|longer|] == "";
  }

  /** Both tails together record the file's usage lines, once and in order. */
  ghost predicate RecordsAll(c: Codec, s: Store, path: string, data: string) {
    var longer := Content(s.files, path) + data;
    Recorded(TwoTails(c, s, path, data).View().tokens, path) == UsageLines(c, longer, 0, |longer|)
  }

  /**
   Whatever the parser accepts and whatever is written later, a tail of a file followed by another one records the
   usage lines of the whole file, each once and in order, if and only if the first found the file ending with a whole
   line.
   */
  lemma {:induction false} HalfLineTailIsSafeExactly(s: Store, path: string)
    requires s.db == Db([], {}, map[]) && s.queue == [] && path in s.files
    ensures LineStart(s.files[path], |s.files[path]|) <==>
      forall c: Codec, data: string :: !c.usage("") && DecodesAll(c) ==> RecordsAll(c, s, path, data)
  {
    var text := s.files[path];
    if LineStart(text, |text|) {
      forall c: Codec, data: string | !c.usage("") && DecodesAll(c) ensures RecordsAll(c, s, path, data)
      {
        WholeLineTailIsSafe(c, s, path, data);
      }
    } else {
      var c := HalfLineTailIsNot(s, path);
      assert !c.usage("") && DecodesAll(c) && !RecordsAll(c, s, path, "x");
    }
  }

  lemma {:induction false} WholeLineTailIsSafe(c: Codec, s: Store, path: string, data: string)
    requires !c.usage("") && DecodesAll(c) && s.db == Db([], {}, map[]) && s.queue == [] && path in s.files
    requires LineStart(s.files[path], |s.files[path]|)
    ensures RecordsAll(c, s, path, data)
  {
    var text := s.files[path];
    TwoTailsRecord(c, s, path, data);
    WindowGrown(c, text, text + data, 0, |text|);
    UsageLinesSplit(c, text + data, 0, |text|, |text + data|);
  }

  /** A parser that accepts nothing but the whole line misses it. */
  lemma {:induction false} HalfLineTailIsNot(s: Store, path: string) returns (c: Codec)
    requires s.db == Db([], {}, map[]) && s.queue == [] && path in s.files
    requires !LineStart(s.files[path], |s.files[path]|)
    ensures !c.usage("") && DecodesAll(c) && !RecordsAll(c, s, path, "x")
  {
    var text := s.files[path];
    var start := LineStartBefore(text, |text|);
    var whole := text[start..] + "x";
    c := Codec(t => t == whole, _ => true);
    LastLineIsLost(c, s, path, start, "x");
  }

  /** The unfinished last line of the text. */
  predicate Unfinished(text: string, start: nat) {
    start < |text| && LineStart(text, start) && '\n' !in text[start..]
  }

  lemma {:induction false} LastLineIs(c: Codec, text: string, start: nat)
    requires Unfinished(text, start)
    ensures NextNewline(text, start, |text|) == |text|
    ensures Line(start, text[start..]) in UsageLines(c, text, 0, |text|) <==> c.usage(text[start..])
  {
    assert forall k :: start <= k < |text| ==>
      text[k] == text[start..][k - start] && text[start..][k - start] in text[start..];
    NextNewlineIs(text, start, |text|, |text|);
    UsageLinesExactly(c, text, 0, |text|, Line(start, text[start..]));
  }

  /** A line of which the first tail saw only the beginning is not recorded by the second. */
  lemma {:induction false} LastLineIsLost(c: Codec, s: Store, path: string, start: nat, rest: string)
    requires !c.usage("") && DecodesAll(c) && s.db == Db([], {}, map[]) && s.queue == [] && path in s.files
    requires Unfinished(s.files[path], start) && '\n' !in rest && rest != "" && c.usage(s.files[path][start..] + rest)
    ensures var text := s.files[path];
      var l := Line(start, text[start..] + rest);
      && l in UsageLines(c, text + rest, 0, |text + rest|)
      && l !in Recorded(TwoTails(c, s, path, rest).View().tokens, path)
  {
    var text := s.files[path];
    TwoTailsRecord(c, s, path, rest);
    LineContinues(c, text, start, rest);
    LongerThanSeen(c, text, start, Line(start, text[start..] + rest));
    UsageLinesAscend(c, text + rest, |text|, |text + rest|);
  }

  lemma {:induction false} LineContinues(c: Codec, text: string, start: nat, rest: string)
    requires Unfinished(text, start) && '\n' !in rest && c.usage(text[start..] + rest)
    ensures Line(start, text[start..] + rest) in UsageLines(c, text + rest, 0, |text + rest|)
  {
    assert (text + rest)[start..] == text[start..] + rest;
    LastLineIs(c, text + rest, start);
  }

  lemma {:induction false} LongerThanSeen(c: Codec, text: string, start: nat, l: Line)
    requires Unfinished(text, start) && l.offset == start && |l.text| > |text| - start
    ensures l !in UsageLines(c, text, 0, |text|)
  {
    LastLineIs(c, text, start);
    UsageLinesExactly(c, text, 0, |text|, l);
  }

  /** Half a line is written, a tail reads it, the rest is written, a tail reads that. */
  function HalfLineSteps(c: Codec, s: Store, path: string, half: string, rest: string): seq<Step> {
    var first := Grown(s, path, half);
    [Append(path, half)] + TailSteps(c, first, path, 0)
      + [Append(path, rest)] + TailSteps(c, Grown(Tailed(c, first, path), path, rest), path, 0)
  }

  lemma {:induction false} HalfLineRuns(c: Codec, s: Store, path: string, half: string, rest: string)
    ensures Run(c, Ingest(s, map[]), HalfLineSteps(c, s, path, half, rest))
         == Ingest(TwoTails(c, Grown(s, path, half), path, rest), map[])
  {
    var i, a, b := Ingest(s, map[]), Append(path, half), Append(path, rest);
    var u := Grown(s, path, half);
    var t := Grown(Tailed(c, u, path), path, rest);
    var first, second := TailSteps(c, u, path, 0), TailSteps(c, t, path, 0);
    RunOne(c, i, a);
    RunAppend(c, i, [a], first);
    WholeTailRuns(c, u, map[], path, 0);
    RunSnoc(c, i, [a] + first, b);
    RunAppend(c, i, [a] + first + [b], second);
    WholeTailRuns(c, t, map[], path, 0);
  }

  /** A parser that accepts the line, but neither half of it, never sees it, and nothing is recorded at all. */
  lemma {:induction false} HalfLineIsLost(c: Codec, i: Ingest, path: string, half: string, rest: string)
    requires !c.usage("") && DecodesAll(c) && Fresh(i) && path !in i.store.files
    requires '\n' !in half && '\n' !in rest && half != "" && rest != ""
    requires c.usage(half + rest) && !c.usage(half) && !c.usage(rest)
    ensures var final := Run(c, i, HalfLineSteps(c, i.store, path, half, rest)).store;
      && UsageLines(c, Content(final.files, path), 0, |Content(final.files, path)|) == [Line(0, half + rest)]
      && Recorded(final.View().tokens, path) == []
  {
    var s := Grown(i.store, path, half);
    assert [] + half == half;
    HalfLineRuns(c, i.store, path, half, rest);
    FirstTail(c, s, path);
    TailedView(c, Grown(Tailed(c, s, path), path, rest), path);
    TwoTailsRecord(c, s, path, rest);
    SingleLine(c, half);
    SingleLine(c, half + rest);
    RestOfLine(c, half, rest);
  }

  lemma {:induction false} RestOfLine(c: Codec, half: string, rest: string)
    requires '\n' !in rest && !c.usage(rest)
    ensures UsageLines(c, half + rest, |half|, |half + rest|) == []
  {
    var text := half + rest;
    assert text[|half|..] == rest && forall k :: |half| <= k < |text| ==>
      text[k] == rest[k - |half|] && text[k] in rest;
    NextNewlineIs(text, |half|, |text|, |text|);
    UsageLinesLast(c, text, |half|, |text|);
    assert text[|half|..|text|] == rest;
  }

  lemma {:induction false} SingleLine(c: Codec, text: string)
    requires '\n' !in text
    ensures UsageLines(c, text, 0, |text|) == if c.usage(text) then [Line(0, text)] else []
  {
    assert forall k :: 0 <= k < |text| ==> text[k] in text;
    NextNewlineIs(text, 0, |text|, |text|);
    UsageLinesLast(c, text, 0, |text|);
    assert text[0..|text|] == text;
  }
}
