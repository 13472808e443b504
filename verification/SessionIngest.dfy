/** Runs of the session ingest. */
module SessionIngest {
  import opened SessionLines
  import opened SessionTail

  // Every terminal pane has a watcher of its own, with its own queue, and all of them share the stored cursors. The
  // parts of a tail are separate calls, so the tails of different readers may come between each other's parts. Files
  // grow, the database queue commits one entry at a time, and the process may die between any two steps.

  // ---------------------------------------------------------------------------------------------------
  // Steps
  // ---------------------------------------------------------------------------------------------------

  /**
   A tail that has read the cursor but not the file yet, or one that is writing the lines of its window: `next`
   lines are done, and the token row of the line after them may be enqueued already.
   */
  datatype InFlight =
    | Begun(path: string, cursor: nat)
    | Emitting(path: string, cursor: nat, end: nat, lines: seq<Line>, next: nat, queued: bool)
  {
    function Done(): nat {
      if Emitting? then next + (if queued then 1 else 0) else 0
    }
  }

  /** `tails`: the tail each reader is inside of. */
  datatype Ingest = Ingest(store: Store, tails: map<nat, InFlight>)

  /**
   `Append` is the other program writing. A tail is `Begin`, `ReadFile`, then `EnqueueToken` and `WriteTrace` for
   each line, then `StoreCursor`. `Commit` runs one queue entry; `Crash` loses the queue and all tails.
   */
  datatype Step =
    | Append(path: string, data: string)
    | Begin(reader: nat, path: string)
    | ReadFile(reader: nat)
    | EnqueueToken(reader: nat)
    | WriteTrace(reader: nat)
    | StoreCursor(reader: nat)
    | Commit
    | Crash

  predicate Can(i: Ingest, step: Step) {
    match step
    case Begin(reader, _) => reader !in i.tails
    case ReadFile(reader) => reader in i.tails && i.tails[reader].Begun?
    case EnqueueToken(reader) =>
      reader in i.tails && i.tails[reader].Emitting? && !i.tails[reader].queued
      && i.tails[reader].next < |i.tails[reader].lines|
    case WriteTrace(reader) =>
      reader in i.tails && i.tails[reader].Emitting? && i.tails[reader].queued
      && i.tails[reader].next < |i.tails[reader].lines|
    case StoreCursor(reader) =>
      reader in i.tails && i.tails[reader].Emitting? && !i.tails[reader].queued
      && i.tails[reader].next == |i.tails[reader].lines|
    case Commit => i.store.queue != []
    case _ => true
  }

  function Effect(c: Codec, i: Ingest, step: Step): Ingest
    requires Can(i, step)
  {
    var s, tails := i.store, i.tails;
    match step
    case Append(path, data) => i.(store := s.(files := s.files[path := Content(s.files, path) + data]))
    case Begin(reader, path) =>
      var t := s.Synced();
      Ingest(t, tails[reader := Begun(path, t.db.CursorOf(path))])
    case ReadFile(reader) =>
      var tail := tails[reader];
      (match Read(c, s.files, tail.path, tail.cursor)
       case Nothing => i.(tails := tails - {reader})
       case Window(lines, end) => i.(tails := tails[reader := Emitting(tail.path, tail.cursor, end, lines, 0, false)]))
    case EnqueueToken(reader) =>
      var tail := tails[reader];
      Ingest(s.Enqueued(Token(Row(tail.path, tail.lines[tail.next]))), tails[reader := tail.(queued := true)])
    case WriteTrace(reader) =>
      var tail := tails[reader];
      Ingest(s.Traced(tail.lines[tail.next]), tails[reader := tail.(next := tail.next + 1, queued := false)])
    case StoreCursor(reader) =>
      var tail := tails[reader];
      Ingest(s.Enqueued(Cursor(tail.path, tail.end)), tails - {reader})
    case Commit => i.(store := s.(db := Apply(s.db, s.queue[0]), queue := s.queue[1..]))
    case Crash => Ingest(s.(queue := []), map[])
  }

  /** A step that cannot be taken changes nothing. */
  function Exec(c: Codec, i: Ingest, step: Step): Ingest {
    if Can(i, step) then Effect(c, i, step) else i
  }

  function Run(c: Codec, i: Ingest, steps: seq<Step>): Ingest
    decreases |steps|
  {
    if steps == [] then i else Exec(c, Run(c, i, steps[..|steps| - 1]), steps[|steps| - 1])
  }

  /** A database nothing has been ingested into, over any files, and nobody reading. */
  predicate Fresh(i: Ingest) {
    i.store.db == Db([], {}, map[]) && i.store.queue == [] && i.tails == map[]
  }

  /** The readers inside a tail of the path. */
  function OnPath(tails: map<nat, InFlight>, path: string): set<nat> {
    set k | k in tails && tails[k].path == path
  }

  /** A tail that begins while another one of the same path has not ended. */
  predicate IsOverlap(i: Ingest, step: Step, path: string) {
    step.Begin? && step.path == path && step.reader !in i.tails && OnPath(i.tails, path) != {}
  }

  /** A crash that finds entries in the queue, or a tail that has written lines but not its cursor. */
  ghost predicate IsLossy(i: Ingest, step: Step) {
    step.Crash? && (i.store.queue != [] || exists k :: k in i.tails && i.tails[k].Done() > 0)
  }

  /** The table holds a row of the file that the stored cursor is not behind. */
  ghost predicate RowsAhead(db: Db, path: string) {
    exists r :: r in db.tokens && r.path == path && db.CursorOf(path) <= r.line.offset
  }

  /** A crash after which rows of the file are read again: it lost work, and of that work rows were committed. */
  ghost predicate IsHarmful(i: Ingest, step: Step, path: string) {
    IsLossy(i, step) && RowsAhead(i.store.db, path)
  }

  function Overlaps(c: Codec, i: Ingest, steps: seq<Step>, path: string): nat
    decreases |steps|
  {
    if steps == [] then 0
    else
      var before := steps[..|steps| - 1];
      Overlaps(c, i, before, path) + if IsOverlap(Run(c, i, before), steps[|steps| - 1], path) then 1 else 0
  }

  ghost function HarmfulCrashes(c: Codec, i: Ingest, steps: seq<Step>, path: string): nat
    decreases |steps|
  {
    if steps == [] then 0
    else
      var before := steps[..|steps| - 1];
      HarmfulCrashes(c, i, before, path) + if IsHarmful(Run(c, i, before), steps[|steps| - 1], path) then 1 else 0
  }

  // ---------------------------------------------------------------------------------------------------
  // The queue
  // ---------------------------------------------------------------------------------------------------

  lemma {:induction false} ApplyFirst(db: Db, ops: seq<Op>, n: nat)
    requires n < |ops|
    ensures ApplyTo(db, ops, n + 1) == ApplyTo(Apply(db, ops[0]), ops[1..], n)
  {
    if n > 0 {
      ApplyFirst(db, ops, n - 1);
    }
  }

  lemma {:induction false} ApplySame(db: Db, a: seq<Op>, b: seq<Op>, n: nat)
    requires n <= |a| && a <= b
    ensures ApplyTo(db, a, n) == ApplyTo(db, b, n)
  {
    if n > 0 {
      ApplySame(db, a, b, n - 1);
    }
  }

  /** What one more queue entry, or a synchronous write, does to what the database will hold. */
  lemma {:induction false} Views(s: Store, op: Op, line: Line)
    ensures s.Enqueued(op).View() == Apply(s.View(), op)
    ensures s.Synced().View() == s.View()
    ensures s.Traced(line).View() == s.View().(traces := s.View().traces + {line})
  {
    ApplySame(s.db, s.queue, s.queue + [op], |s.queue|);
  }

  /** Committing never takes anything away, and moves cursors to enqueued places only. */
  lemma {:induction false} ViewExtends(db: Db, ops: seq<Op>)
    ensures var v := ApplyAll(db, ops);
      && db.tokens <= v.tokens && db.traces == v.traces
      && (forall p :: v.CursorOf(p) == db.CursorOf(p) || Cursor(p, v.CursorOf(p)) in ops)
      && (forall r :: r in v.tokens ==> r in db.tokens || Token(r) in ops)
      && (forall r :: Token(r) in ops ==> r in v.tokens)
  {
    ExtendsTo(db, ops, |ops|);
    assert ops[..|ops|] == ops;
  }

  lemma {:induction false} ExtendsTo(db: Db, ops: seq<Op>, n: nat)
    requires n <= |ops|
    ensures var v, done := ApplyTo(db, ops, n), ops[..n];
      && db.tokens <= v.tokens && db.traces == v.traces
      && (forall p :: v.CursorOf(p) == db.CursorOf(p) || Cursor(p, v.CursorOf(p)) in done)
      && (forall r :: r in v.tokens ==> r in db.tokens || Token(r) in done)
      && (forall r :: Token(r) in done ==> r in v.tokens)
  {
    if n > 0 {
      ExtendsTo(db, ops, n - 1);
      assert ops[..n] == ops[..n - 1] + [ops[n - 1]];
    }
  }

  /** The only steps that change what the database will hold. */
  function ViewStep(i: Ingest, step: Step): Db {
    var v := i.store.View();
    if !Can(i, step) then v
    else match step
      case EnqueueToken(reader) =>
        Apply(v, Token(Row(i.tails[reader].path, i.tails[reader].lines[i.tails[reader].next])))
      case WriteTrace(reader) => v.(traces := v.traces + {i.tails[reader].lines[i.tails[reader].next]})
      case StoreCursor(reader) => Apply(v, Cursor(i.tails[reader].path, i.tails[reader].end))
      case Crash => i.store.db
      case _ => v
  }

  lemma {:induction false} ViewAfter(c: Codec, i: Ingest, step: Step)
    ensures Exec(c, i, step).store.View() == ViewStep(i, step)
  {
    if Can(i, step) {
      match step
      case EnqueueToken(reader) =>
        Views(i.store, Token(Row(i.tails[reader].path, i.tails[reader].lines[i.tails[reader].next])), Line(0, ""));
      case WriteTrace(reader) => Views(i.store, Cursor("", 0), i.tails[reader].lines[i.tails[reader].next]);
      case StoreCursor(reader) => Views(i.store, Cursor(i.tails[reader].path, i.tails[reader].end), Line(0, ""));
      case Commit => ApplyFirst(i.store.db, i.store.queue, |i.store.queue| - 1);
      case _ =>
    }
  }

  // ---------------------------------------------------------------------------------------------------
  // Cursors stay within their files
  // ---------------------------------------------------------------------------------------------------

  ghost predicate CursorsWithin(files: map<string, string>, db: Db) {
    forall path :: db.CursorOf(path) <= |Content(files, path)|
  }

  ghost predicate QueueWithin(files: map<string, string>, queue: seq<Op>) {
    forall op <- queue :: op.Cursor? ==> op.offset <= |Content(files, op.path)|
  }

  /** A tail stays within its file, its lines are in order and start behind its cursor. */
  ghost predicate TailWithin(files: map<string, string>, t: InFlight) {
    && t.cursor <= |Content(files, t.path)|
    && (t.Emitting? ==>
          && t.cursor <= t.end <= |Content(files, t.path)| && Ascending(t.lines, t.cursor, t.end)
          && t.next <= |t.lines| && (t.queued ==> t.next < |t.lines|))
  }

  ghost predicate TailsWithin(files: map<string, string>, tails: map<nat, InFlight>) {
    forall k <- tails :: TailWithin(files, tails[k])
  }

  ghost predicate Within(i: Ingest) {
    && CursorsWithin(i.store.files, i.store.db) && QueueWithin(i.store.files, i.store.queue)
    && TailsWithin(i.store.files, i.tails)
  }

  lemma {:induction false} ViewWithin(i: Ingest)
    requires Within(i)
    ensures CursorsWithin(i.store.files, i.store.View())
  {
    ViewExtends(i.store.db, i.store.queue);
  }

  lemma {:induction false} ReadIsWithin(c: Codec, files: map<string, string>, path: string, cursor: nat)
    requires !c.usage("") && cursor <= |Content(files, path)|
    ensures match Read(c, files, path, cursor)
            case Nothing => true
            case Window(lines, end) =>
              && end == |Content(files, path)| && lines == UsageLines(c, Content(files, path), cursor, end)
              && Ascending(lines, cursor, end)
  {
    UsageLinesAscend(c, Content(files, path), cursor, |Content(files, path)|);
  }

  lemma {:induction false} WithinStep(c: Codec, i: Ingest, step: Step)
    requires !c.usage("") && Within(i)
    ensures Within(Exec(c, i, step))
  {
    var s, t := i.store, Exec(c, i, step);
    match step
    case Append(path, data) => WithinAppend(s.files, path, data, i);
    case Begin(reader, path) =>
      ViewWithin(i);
    case ReadFile(reader) =>
      if Can(i, step) {
        ReadIsWithin(c, s.files, i.tails[reader].path, i.tails[reader].cursor);
      }
    case EnqueueToken(reader) =>
    case WriteTrace(reader) =>
      ViewWithin(i);
    case StoreCursor(reader) =>
      assert Can(i, step) ==> TailWithin(s.files, i.tails[reader]);
    case Commit =>
      if Can(i, step) {
        assert s.queue[0] in s.queue && forall op <- s.queue[1..] :: op in s.queue;
      }
    case Crash =>
  }

  lemma {:induction false} WithinAppend(files: map<string, string>, path: string, data: string, i: Ingest)
    requires Within(i) && files == i.store.files
    ensures var more := files[path := Content(files, path) + data];
      CursorsWithin(more, i.store.db) && QueueWithin(more, i.store.queue) && TailsWithin(more, i.tails)
  {
    var more := files[path := Content(files, path) + data];
    assert forall p :: |Content(files, p)| <= |Content(more, p)|;
    forall p ensures i.store.db.CursorOf(p) <= |Content(more, p)|
    {
      assert i.store.db.CursorOf(p) <= |Content(files, p)|;
    }
  }
}
