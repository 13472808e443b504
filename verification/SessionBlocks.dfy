/**
 Whole tails as runs of their steps, and what they write.

 A reader whose tail nothing comes between takes its steps one after the other. Here those steps are listed and run,
 and shown to do what the tail does in one piece.
 */
module SessionBlocks {
  import opened SessionLines
  import opened SessionTail
  import opened SessionIngest

  lemma {:induction false} RunAppend(c: Codec, i: Ingest, a: seq<Step>, b: seq<Step>)
    ensures Run(c, i, a + b) == Run(c, Run(c, i, a), b)
    decreases |b|
  {
    if b == [] {
      assert a + b == a;
    } else {
      RunAppend(c, i, a, b[..|b| - 1]);
      assert (a + b)[..|a + b| - 1] == a + b[..|b| - 1];
    }
  }

  lemma {:induction false} RunAppendTwo(c: Codec, i: Ingest, a: seq<Step>, b: seq<Step>, d: seq<Step>)
    ensures Run(c, i, a + b + d) == Run(c, Run(c, Run(c, i, a), b), d)
  {
    RunAppend(c, i, a + b, d);
    RunAppend(c, i, a, b);
  }

  lemma {:induction false} RunOne(c: Codec, i: Ingest, step: Step)
    ensures Run(c, i, [step]) == Exec(c, i, step)
  {
    assert [step][..0] == [];
  }

  lemma {:induction false} RunSnoc(c: Codec, i: Ingest, a: seq<Step>, step: Step)
    ensures Run(c, i, a + [step]) == Exec(c, Run(c, i, a), step)
  {
    RunAppend(c, i, a, [step]);
    RunOne(c, Run(c, i, a), step);
  }

  // ---------------------------------------------------------------------------------------------------
  // A tail that nothing comes between
  // ---------------------------------------------------------------------------------------------------

  /** The steps that write `n` lines. */
  function EmitSteps(k: nat, n: nat): seq<Step> {
    if n == 0 then [] else EmitSteps(k, n - 1) + [EnqueueToken(k)] + [WriteTrace(k)]
  }

  /** Inside a window, with its lines written up to `end`. */
  function Emits(i: Ingest, k: nat, end: nat): Ingest
    requires k in i.tails && i.tails[k].Emitting? && i.tails[k].next <= end <= |i.tails[k].lines|
  {
    var t := i.tails[k];
    Ingest(Emitted(i.store, t.path, t.lines, t.next, end), i.tails[k := t.(next := end)])
  }

  /** The two steps that write a line. */
  function WriteLine(c: Codec, i: Ingest, k: nat): Ingest {
    Exec(c, Exec(c, i, EnqueueToken(k)), WriteTrace(k))
  }

  function WriteLines(c: Codec, i: Ingest, k: nat, n: nat): Ingest {
    if n == 0 then i else WriteLine(c, WriteLines(c, i, k, n - 1), k)
  }

  lemma {:induction false} LinesRun(c: Codec, i: Ingest, k: nat, n: nat)
    ensures Run(c, i, EmitSteps(k, n)) == WriteLines(c, i, k, n)
  {
    if n > 0 {
      LinesRun(c, i, k, n - 1);
      OneLineMore(c, i, EmitSteps(k, n - 1), k);
    }
  }

  lemma {:induction false} OneLineMore(c: Codec, i: Ingest, steps: seq<Step>, k: nat)
    ensures Run(c, i, steps + [EnqueueToken(k)] + [WriteTrace(k)]) == WriteLine(c, Run(c, i, steps), k)
  {
    RunSnoc(c, i, steps, EnqueueToken(k));
    RunSnoc(c, i, steps + [EnqueueToken(k)], WriteTrace(k));
  }

  lemma {:induction false} LinesEmit(c: Codec, i: Ingest, k: nat, n: nat)
    requires k in i.tails && i.tails[k].Emitting? && !i.tails[k].queued && i.tails[k].next + n <= |i.tails[k].lines|
    ensures WriteLines(c, i, k, n) == Emits(i, k, i.tails[k].next + n)
  {
    if n == 0 {
      EmitsNone(i, k);
    } else {
      LinesEmit(c, i, k, n - 1);
      EmitsOneMore(c, i, k, i.tails[k].next + n - 1);
    }
  }

  lemma {:induction false} EmitRuns(c: Codec, i: Ingest, k: nat, n: nat)
    requires k in i.tails && i.tails[k].Emitting? && !i.tails[k].queued && i.tails[k].next + n <= |i.tails[k].lines|
    ensures Run(c, i, EmitSteps(k, n)) == Emits(i, k, i.tails[k].next + n)
  {
    LinesRun(c, i, k, n);
    LinesEmit(c, i, k, n);
  }

  lemma {:induction false} EmitsNone(i: Ingest, k: nat)
    requires k in i.tails && i.tails[k].Emitting? && i.tails[k].next <= |i.tails[k].lines|
    ensures Emits(i, k, i.tails[k].next) == i
  {
    assert i.tails[k := i.tails[k]] == i.tails;
  }

  lemma {:induction false} EmitsOneMore(c: Codec, i: Ingest, k: nat, end: nat)
    requires k in i.tails && i.tails[k].Emitting? && !i.tails[k].queued && i.tails[k].next <= end < |i.tails[k].lines|
    ensures WriteLine(c, Emits(i, k, end), k) == Emits(i, k, end + 1)
  {
    var t, mid := i.tails[k], Emits(i, k, end);
    OneLine(c, mid, k);
    assert mid.tails[k] == t.(next := end);
    assert mid.tails[k := t.(next := end + 1)] == i.tails[k := t.(next := end + 1)];
    assert Emitted(i.store, t.path, t.lines, t.next, end + 1)
        == mid.store.Enqueued(Token(Row(t.path, t.lines[end]))).Traced(t.lines[end]);
  }

  lemma {:induction false} OneLine(c: Codec, i: Ingest, k: nat)
    requires Can(i, EnqueueToken(k))
    ensures var t := i.tails[k];
      WriteLine(c, i, k)
        == Ingest(i.store.Enqueued(Token(Row(t.path, t.lines[t.next]))).Traced(t.lines[t.next]),
                  i.tails[k := t.(next := t.next + 1)])
  {
    var t := i.tails[k];
    var u := Exec(c, i, EnqueueToken(k));
    assert u.tails[k] == t.(queued := true) && Can(u, WriteTrace(k));
    assert t.(queued := true).(next := t.next + 1, queued := false) == t.(next := t.next + 1);
    assert u.tails[k := t.(next := t.next + 1)] == i.tails[k := t.(next := t.next + 1)];
  }

  /** What a tail that has begun still does. */
  function RestOfTail(c: Codec, files: map<string, string>, path: string, cursor: nat, k: nat): seq<Step> {
    match Read(c, files, path, cursor)
    case Nothing => [ReadFile(k)]
    case Window(lines, _) => [ReadFile(k)] + EmitSteps(k, |lines|) + [StoreCursor(k)]
  }

  /** The whole effect of the rest of a tail that has begun. */
  function Finished(c: Codec, s: Store, path: string, cursor: nat): Store {
    match Read(c, s.files, path, cursor)
    case Nothing => s
    case Window(lines, end) => Emitted(s, path, lines, 0, |lines|).Enqueued(Cursor(path, end))
  }

  lemma {:induction false} RestRuns(c: Codec, i: Ingest, k: nat)
    requires Can(i, ReadFile(k))
    ensures var t := i.tails[k];
      Run(c, i, RestOfTail(c, i.store.files, t.path, t.cursor, k))
        == Ingest(Finished(c, i.store, t.path, t.cursor), i.tails - {k})
  {
    var t := i.tails[k];
    RunOne(c, i, ReadFile(k));
    match Read(c, i.store.files, t.path, t.cursor)
    case Nothing =>
    case Window(lines, end) =>
      RunAppend(c, i, [ReadFile(k)], EmitSteps(k, |lines|));
      RunSnoc(c, i, [ReadFile(k)] + EmitSteps(k, |lines|), StoreCursor(k));
      WindowRuns(c, i, k, Emitting(t.path, t.cursor, end, lines, 0, false));
  }

  /** A window is written from its first line on, and its cursor stored. */
  lemma {:induction false} WindowRuns(c: Codec, i: Ingest, k: nat, t: InFlight)
    requires k in i.tails && t.Emitting? && t.next == 0 && !t.queued
    ensures var u := Ingest(i.store, i.tails[k := t]);
      Exec(c, Run(c, u, EmitSteps(k, |t.lines|)), StoreCursor(k))
        == Ingest(Emitted(i.store, t.path, t.lines, 0, |t.lines|).Enqueued(Cursor(t.path, t.end)), i.tails - {k})
  {
    var u := Ingest(i.store, i.tails[k := t]);
    EmitRuns(c, u, k, |t.lines|);
    var last := t.(next := |t.lines|);
    assert u.tails[k := last] == i.tails[k := last];
    StoreRuns(c, Emitted(i.store, t.path, t.lines, 0, |t.lines|), i.tails, k, last);
  }

  lemma {:induction false} StoreRuns(c: Codec, s: Store, tails: map<nat, InFlight>, k: nat, t: InFlight)
    requires k in tails && t.Emitting? && !t.queued && t.next == |t.lines|
    ensures Exec(c, Ingest(s, tails[k := t]), StoreCursor(k)) == Ingest(s.Enqueued(Cursor(t.path, t.end)), tails - {k})
  {
    assert tails[k := t] - {k} == tails - {k};
  }

  function TailSteps(c: Codec, s: Store, path: string, k: nat): seq<Step> {
    [Begin(k, path)] + RestOfTail(c, s.files, path, s.View().CursorOf(path), k)
  }

  /** The steps of a tail, taken one after the other, do what the tail does. */
  lemma {:induction false} WholeTailRuns(c: Codec, s: Store, tails: map<nat, InFlight>, path: string, k: nat)
    requires k !in tails
    ensures Run(c, Ingest(s, tails), TailSteps(c, s, path, k)) == Ingest(Tailed(c, s, path), tails)
  {
    var i, cursor := Ingest(s, tails), s.View().CursorOf(path);
    var begun := Ingest(s.Synced(), tails[k := Begun(path, cursor)]);
    RunOne(c, i, Begin(k, path));
    RunAppend(c, i, [Begin(k, path)], RestOfTail(c, s.files, path, cursor, k));
    RestRuns(c, begun, k);
    assert begun.tails - {k} == tails;
  }

  // ---------------------------------------------------------------------------------------------------
  // What is written
  // ---------------------------------------------------------------------------------------------------

  function RowsOf(path: string, lines: seq<Line>): (rows: seq<Row>)
    ensures |rows| == |lines| && forall k :: 0 <= k < |rows| ==> rows[k] == Row(path, lines[k])
  {
    seq(|lines|, k requires 0 <= k < |lines| => Row(path, lines[k]))
  }

  function SetOf(lines: seq<Line>): set<Line> {
    set l <- lines
  }

  /** `t` holds what `v` held and the rows of the lines. */
  ghost predicate HoldsRows(v: Db, t: Db, path: string, lines: seq<Line>) {
    t.cursors == v.cursors && t.tokens == v.tokens + RowsOf(path, lines) && t.traces == v.traces + SetOf(lines)
  }

  lemma {:induction false} HoldsNoRows(v: Db, path: string)
    ensures HoldsRows(v, v, path, [])
  {
    assert v.tokens + RowsOf(path, []) == v.tokens && v.traces + SetOf([]) == v.traces;
  }

  lemma {:induction false} HoldsOneMore(v: Db, t: Db, u: Db, path: string, lines: seq<Line>, last: Line)
    requires HoldsRows(v, t, path, lines)
    requires u.cursors == t.cursors && u.tokens == t.tokens + [Row(path, last)] && u.traces == t.traces + {last}
    ensures HoldsRows(v, u, path, lines + [last])
  {
    assert RowsOf(path, lines + [last]) == RowsOf(path, lines) + [Row(path, last)];
    assert SetOf(lines + [last]) == SetOf(lines) + {last};
    AppendAssoc(v.tokens, RowsOf(path, lines), [Row(path, last)]);
  }

  /** What the lines of a window up to `end` add. */
  ghost predicate EmittedHolds(s: Store, path: string, lines: seq<Line>, from: nat, end: nat)
    requires from <= end <= |lines|
  {
    var t := Emitted(s, path, lines, from, end);
    t.files == s.files && HoldsRows(s.View(), t.View(), path, lines[from..end])
  }

  lemma {:induction false} EmittedView(s: Store, path: string, lines: seq<Line>, from: nat, end: nat)
    requires from <= end <= |lines|
    ensures EmittedHolds(s, path, lines, from, end)
    decreases end - from
  {
    if from == end {
      EmittedNone(s, path, lines, from);
    } else {
      EmittedView(s, path, lines, from, end - 1);
      EmittedMore(s, path, lines, from, end);
    }
  }

  lemma {:induction false} EmittedNone(s: Store, path: string, lines: seq<Line>, from: nat)
    requires from <= |lines|
    ensures EmittedHolds(s, path, lines, from, from)
  {
    HoldsNoRows(s.View(), path);
    assert lines[from..from] == [];
  }

  lemma {:induction false} EmittedMore(s: Store, path: string, lines: seq<Line>, from: nat, end: nat)
    requires from < end <= |lines| && EmittedHolds(s, path, lines, from, end - 1)
    ensures EmittedHolds(s, path, lines, from, end)
  {
    var t, last := Emitted(s, path, lines, from, end - 1), lines[end - 1];
    var u := t.Enqueued(Token(Row(path, last))).Traced(last);
    OneLineView(t, Row(path, last));
    HoldsOneMore(s.View(), t.View(), u.View(), path, lines[from..end - 1], last);
    assert lines[from..end] == lines[from..end - 1] + [last];
    assert u == Emitted(s, path, lines, from, end);
  }

  lemma {:induction false} OneLineView(s: Store, row: Row)
    ensures var v, t := s.View(), s.Enqueued(Token(row)).Traced(row.line);
      && t.files == s.files && t.View().cursors == v.cursors
      && t.View().tokens == v.tokens + [row] && t.View().traces == v.traces + {row.line}
  {
    Views(s, Token(row), row.line);
    Views(s.Enqueued(Token(row)), Token(row), row.line);
  }

  /** The lines the rest of a tail writes. */
  function FinishedLines(c: Codec, files: map<string, string>, path: string, cursor: nat): seq<Line> {
    match Read(c, files, path, cursor)
    case Nothing => []
    case Window(lines, _) => lines
  }

  lemma {:induction false} FinishedView(c: Codec, s: Store, path: string, cursor: nat)
    ensures var v, t, lines := s.View(), Finished(c, s, path, cursor), FinishedLines(c, s.files, path, cursor);
      && t.files == s.files
      && t.View().tokens == v.tokens + RowsOf(path, lines) && t.View().traces == v.traces + SetOf(lines)
      && t.View().cursors
           == if Read(c, s.files, path, cursor).Window? then v.cursors[path := |Content(s.files, path)|] else v.cursors
  {
    var v := s.View();
    match Read(c, s.files, path, cursor)
    case Nothing => HoldsNoRows(v, path);
    case Window(lines, end) =>
      assert lines[0..|lines|] == lines;
      EmittedView(s, path, lines, 0, |lines|);
      Views(Emitted(s, path, lines, 0, |lines|), Cursor(path, end), Line(0, ""));
  }

  lemma {:induction false} TailedView(c: Codec, s: Store, path: string)
    ensures var v, t := s.View(), Tailed(c, s, path);
      var lines := FinishedLines(c, s.files, path, v.CursorOf(path));
      && t.files == s.files
      && t.View().tokens == v.tokens + RowsOf(path, lines) && t.View().traces == v.traces + SetOf(lines)
      && t.View().cursors == if Read(c, s.files, path, v.CursorOf(path)).Window?
                             then v.cursors[path := |Content(s.files, path)|] else v.cursors
  {
    Views(s, Cursor("", 0), Line(0, ""));
    FinishedView(c, s.Synced(), path, s.View().CursorOf(path));
  }

  /** Where a read starts: at the cursor, unless the file has become shorter than that; then at the beginning. */
  predicate ReadsFrom(cursor: nat, size: nat, from: nat) {
    from == if cursor <= size then cursor else 0
  }

  /**
   What a tail of a file that is there records: a row and a trace for each usage line between where it starts and the
   end, in order, and the end as the new cursor. Nothing at all if there is nothing new, or it does not decode.
   */
  lemma {:induction false} TailRecordsExactly(c: Codec, s: Store, path: string, from: nat) returns (lines: seq<Line>)
    requires !c.usage("") && path in s.files
    requires ReadsFrom(s.View().CursorOf(path), |s.files[path]|, from)
    ensures
      var v, t, text := s.View(), Tailed(c, s, path).View(), s.files[path];
      && t.tokens == v.tokens + RowsOf(path, lines) && t.traces == v.traces + SetOf(lines)
      && Ascending(lines, from, |text|)
      && (from < |text| && c.decodes(text[from..]) ==>
            && (forall l :: l in lines <==> IsUsageLine(c, text, from, |text|, l))
            && t.cursors == v.cursors[path := |text|])
      && (from == |text| || !c.decodes(text[from..]) ==> lines == [] && t.cursors == v.cursors)
  {
    var text := s.files[path];
    lines := FinishedLines(c, s.files, path, s.View().CursorOf(path));
    TailedView(c, s, path);
    UsageLinesAscend(c, text, from, |text|);
    forall l ensures l in UsageLines(c, text, from, |text|) <==> IsUsageLine(c, text, from, |text|, l)
    {
      UsageLinesExactly(c, text, from, |text|, l);
    }
  }

  /** A tail of a file that is not there records nothing. */
  lemma {:induction false} TailOfNothing(c: Codec, s: Store, path: string)
    requires path !in s.files
    ensures Tailed(c, s, path).View() == s.View()
  {
    Views(s, Cursor("", 0), Line(0, ""));
  }
}
