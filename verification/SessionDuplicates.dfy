/** How often a row can be recorded. */
module SessionDuplicates {
  import opened SessionLines
  import opened SessionTail
  import opened SessionIngest

  function Copies(db: Db, r: Row): nat {
    multiset(db.tokens)[r]
  }

  /** The tail has enqueued the row of the line. */
  predicate HasEmitted(t: InFlight, l: Line) {
    t.Emitting? && exists k :: 0 <= k < t.Done() && k < |t.lines| && t.lines[k] == l
  }

  /** The tail started at or before the line and has not enqueued it. */
  predicate Owes(t: InFlight, r: Row) {
    t.path == r.path && t.cursor <= r.line.offset && !HasEmitted(t, r.line)
  }

  function Owing(tails: map<nat, InFlight>, r: Row): set<nat> {
    set k | k in tails && Owes(tails[k], r)
  }

  /** The tails of the path that started behind the line. */
  function Behind(tails: map<nat, InFlight>, r: Row): set<nat> {
    set k | k in tails && tails[k].path == r.path && r.line.offset < tails[k].cursor
  }

  /**
   With no tail of its file under way, a row in front of the cursor has one copy more than was allowed for, and any
   other row none. While tails are under way, those that may still write the row count as copies already; and if the
   cursor has moved back in front of a row that some tail started behind, nothing is left over.
   */
  ghost predicate AccountedIn(copies: nat, cursor: nat, tails: map<nat, InFlight>, r: Row, n: nat) {
    if OnPath(tails, r.path) == {} then copies <= n + (if r.line.offset < cursor then 1 else 0)
    else
      && copies + |Owing(tails, r)| <= n + 1
      && (Behind(tails, r) != {} && cursor <= r.line.offset ==> copies + |Owing(tails, r)| <= n)
  }

  ghost predicate Accounted(i: Ingest, r: Row, n: nat) {
    AccountedIn(Copies(i.store.View(), r), i.store.View().CursorOf(r.path), i.tails, r, n)
  }

  // ---------------------------------------------------------------------------------------------------
  // One step
  // ---------------------------------------------------------------------------------------------------

  lemma {:induction false} AccountedBegin(copies: nat, cursor: nat, tails: map<nat, InFlight>, r: Row, n: nat,
                                          k: nat, path: string)
    requires AccountedIn(copies, cursor, tails, r, n) && k !in tails && path == r.path
    ensures var m := if OnPath(tails, path) == {} then n else n + 1;
      AccountedIn(copies, cursor, tails[k := Begun(path, cursor)], r, m)
  {
    var more := tails[k := Begun(path, cursor)];
    assert OnPath(more, path) == OnPath(tails, path) + {k};
    if cursor <= r.line.offset {
      assert Owing(more, r) == Owing(tails, r) + {k};
      assert Behind(more, r) == Behind(tails, r);
    } else {
      assert Owing(more, r) == Owing(tails, r);
    }
    if OnPath(tails, path) == {} {
      NobodyOwes(tails, r);
    }
  }

  lemma {:induction false} NobodyOwes(tails: map<nat, InFlight>, r: Row)
    requires OnPath(tails, r.path) == {}
    ensures Owing(tails, r) == {} && Behind(tails, r) == {}
  {
    assert forall j :: j in Owing(tails, r) || j in Behind(tails, r) ==> j in OnPath(tails, r.path);
  }

  /** A tail that goes from one stage to another without writing the row. */
  lemma {:induction false} AccountedSame(copies: nat, cursor: nat, tails: map<nat, InFlight>, r: Row, n: nat,
                                         k: nat, t: InFlight)
    requires AccountedIn(copies, cursor, tails, r, n) && k in tails
    requires t.path == tails[k].path && t.cursor == tails[k].cursor && (Owes(t, r) <==> Owes(tails[k], r))
    ensures AccountedIn(copies, cursor, tails[k := t], r, n)
  {
    var other := tails[k := t];
    assert OnPath(other, r.path) == OnPath(tails, r.path);
    assert Owing(other, r) == Owing(tails, r) && Behind(other, r) == Behind(tails, r);
  }

  /** Tails of other files do not matter. */
  lemma {:induction false} AccountedElsewhere(copies: nat, cursor: nat, tails: map<nat, InFlight>,
                                              other: map<nat, InFlight>, r: Row, n: nat, k: nat)
    requires AccountedIn(copies, cursor, tails, r, n)
    requires forall j :: j != k ==> (j in tails <==> j in other) && (j in tails ==> tails[j] == other[j])
    requires (k in tails ==> tails[k].path != r.path) && (k in other ==> other[k].path != r.path)
    ensures AccountedIn(copies, cursor, other, r, n)
  {
    assert OnPath(other, r.path) == OnPath(tails, r.path);
    assert Owing(other, r) == Owing(tails, r) && Behind(other, r) == Behind(tails, r);
  }

  /** A tail writes a row it owes. */
  lemma {:induction false} AccountedEmit(copies: nat, cursor: nat, tails: map<nat, InFlight>, r: Row, n: nat,
                                         k: nat, t: InFlight)
    requires AccountedIn(copies, cursor, tails, r, n) && k in tails && Owes(tails[k], r)
    requires t.path == tails[k].path && t.cursor == tails[k].cursor && HasEmitted(t, r.line)
    ensures AccountedIn(copies + 1, cursor, tails[k := t], r, n)
  {
    var other := tails[k := t];
    assert k in OnPath(tails, r.path);
    assert OnPath(other, r.path) == OnPath(tails, r.path);
    assert Owing(other, r) == Owing(tails, r) - {k} && Behind(other, r) == Behind(tails, r);
  }

  /** A tail ends without storing a cursor, having written nothing. */
  lemma {:induction false} AccountedQuietEnd(copies: nat, cursor: nat, tails: map<nat, InFlight>, r: Row, n: nat,
                                             k: nat)
    requires AccountedIn(copies, cursor, tails, r, n) && k in tails && tails[k].Begun?
    ensures AccountedIn(copies, cursor, tails - {k}, r, n)
  {
    var rest := tails - {k};
    assert OnPath(rest, r.path) == OnPath(tails, r.path) - {k};
    assert Owing(rest, r) == Owing(tails, r) - {k} && Behind(rest, r) == Behind(tails, r) - {k};
    if tails[k].path == r.path {
      assert k in OnPath(tails, r.path);
      assert k in Owing(tails, r) || k in Behind(tails, r);
    }
  }

  /** A tail ends by storing its cursor, with every line written. */
  lemma {:induction false} AccountedStore(copies: nat, cursor: nat, tails: map<nat, InFlight>, r: Row, n: nat, k: nat)
    requires AccountedIn(copies, cursor, tails, r, n) && k in tails && tails[k].Emitting? && tails[k].path == r.path
    requires Ascending(tails[k].lines, tails[k].cursor, tails[k].end) && tails[k].cursor <= tails[k].end
    ensures AccountedIn(copies, tails[k].end, tails - {k}, r, n)
  {
    var rest := tails - {k};
    assert k in OnPath(tails, r.path);
    assert OnPath(rest, r.path) == OnPath(tails, r.path) - {k};
    assert Owing(rest, r) == Owing(tails, r) - {k} && Behind(rest, r) == Behind(tails, r) - {k};
    if tails[k].end <= r.line.offset {
      assert !HasEmitted(tails[k], r.line);
      assert k in Owing(tails, r);
    }
  }

  /** All tails vanish; those that have written nothing leave the account as it was. */
  lemma {:induction false} AccountedQuietCrash(copies: nat, cursor: nat, tails: map<nat, InFlight>, r: Row, n: nat)
    requires AccountedIn(copies, cursor, tails, r, n) && forall k <- tails :: tails[k].Done() == 0
    ensures AccountedIn(copies, cursor, map[], r, n)
  {
    assert OnPath(map[], r.path) == {};
    if k :| k in OnPath(tails, r.path) {
      assert k in Owing(tails, r) || k in Behind(tails, r);
    }
  }

  /** All tails vanish, and every row of the file that stays is in front of the cursor that stays. */
  lemma {:induction false} AccountedFinished(copies: nat, cursor: nat, tails: map<nat, InFlight>, r: Row, n: nat,
                                             fewer: nat, before: nat)
    requires AccountedIn(copies, cursor, tails, r, n) && fewer <= copies
    requires before <= r.line.offset ==> fewer == 0
    ensures AccountedIn(fewer, before, map[], r, n)
  {
    assert OnPath(map[], r.path) == {};
  }

  lemma {:induction false} AccountedLoss(copies: nat, cursor: nat, tails: map<nat, InFlight>, r: Row, n: nat,
                                         fewer: nat, before: nat)
    requires AccountedIn(copies, cursor, tails, r, n) && fewer <= copies
    ensures AccountedIn(fewer, before, map[], r, n + 1)
  {
    assert OnPath(map[], r.path) == {};
  }

  lemma {:induction false} CopiesAppend(tokens: seq<Row>, row: Row, r: Row)
    ensures multiset(tokens + [row])[r] == multiset(tokens)[r] + if r == row then 1 else 0
  {
  }

  lemma {:induction false} FewerCopies(db: Db, ops: seq<Op>, r: Row)
    ensures Copies(db, r) <= Copies(ApplyAll(db, ops), r)
  {
    ViewExtends(db, ops);
    var v := ApplyAll(db, ops);
    assert v.tokens == db.tokens + v.tokens[|db.tokens|..];
  }

  lemma {:induction false} BeginStep(c: Codec, i: Ingest, reader: nat, path: string, r: Row, n: nat)
    requires Accounted(i, r, n) && reader !in i.tails
    ensures var step := Begin(reader, path);
      Accounted(Exec(c, i, step), r, n + if IsOverlap(i, step, r.path) then 1 else 0)
  {
    var v := i.store.View();
    ViewAfter(c, i, Begin(reader, path));
    if path == r.path {
      AccountedBegin(Copies(v, r), v.CursorOf(path), i.tails, r, n, reader, path);
    } else {
      AccountedElsewhere(Copies(v, r), v.CursorOf(r.path), i.tails, i.tails[reader := Begun(path, v.CursorOf(path))],
                         r, n, reader);
    }
  }

  lemma {:induction false} ReadStep(c: Codec, i: Ingest, reader: nat, r: Row, n: nat)
    requires Accounted(i, r, n) && Can(i, ReadFile(reader))
    ensures Accounted(Exec(c, i, ReadFile(reader)), r, n)
  {
    var v, tail := i.store.View(), i.tails[reader];
    ViewAfter(c, i, ReadFile(reader));
    match Read(c, i.store.files, tail.path, tail.cursor)
    case Nothing => AccountedQuietEnd(Copies(v, r), v.CursorOf(r.path), i.tails, r, n, reader);
    case Window(lines, end) =>
      AccountedSame(Copies(v, r), v.CursorOf(r.path), i.tails, r, n, reader,
                    Emitting(tail.path, tail.cursor, end, lines, 0, false));
  }

  /** A line further on has not been emitted yet. */
  lemma {:induction false} NextIsOwed(t: InFlight, r: Row)
    requires t.Emitting? && !t.queued && t.next < |t.lines| && Ascending(t.lines, t.cursor, t.end)
    ensures r == Row(t.path, t.lines[t.next]) ==> Owes(t, r)
    ensures var u := t.(queued := true);
      if r == Row(t.path, t.lines[t.next]) then HasEmitted(u, r.line)
      else (t.path == r.path ==> (Owes(u, r) <==> Owes(t, r)))
  {
    var u := t.(queued := true);
    assert u.Done() == t.next + 1 && t.lines[t.next] == u.lines[t.next];
  }

  lemma {:induction false} TokenStep(c: Codec, i: Ingest, reader: nat, r: Row, n: nat)
    requires Within(i) && Accounted(i, r, n) && Can(i, EnqueueToken(reader))
    ensures Accounted(Exec(c, i, EnqueueToken(reader)), r, n)
  {
    var v, tail := i.store.View(), i.tails[reader];
    var row, after := Row(tail.path, tail.lines[tail.next]), tail.(queued := true);
    ViewAfter(c, i, EnqueueToken(reader));
    assert TailWithin(i.store.files, tail);
    CopiesAppend(v.tokens, row, r);
    NextIsOwed(tail, r);
    if r == row {
      AccountedEmit(Copies(v, r), v.CursorOf(r.path), i.tails, r, n, reader, after);
    } else if tail.path == r.path {
      AccountedSame(Copies(v, r), v.CursorOf(r.path), i.tails, r, n, reader, after);
    } else {
      AccountedElsewhere(Copies(v, r), v.CursorOf(r.path), i.tails, i.tails[reader := after], r, n, reader);
    }
  }

  lemma {:induction false} TraceStep(c: Codec, i: Ingest, reader: nat, r: Row, n: nat)
    requires Accounted(i, r, n) && Can(i, WriteTrace(reader))
    ensures Accounted(Exec(c, i, WriteTrace(reader)), r, n)
  {
    var v, tail := i.store.View(), i.tails[reader];
    ViewAfter(c, i, WriteTrace(reader));
    var after := tail.(next := tail.next + 1, queued := false);
    assert after.Done() == tail.Done();
    AccountedSame(Copies(v, r), v.CursorOf(r.path), i.tails, r, n, reader, after);
  }

  lemma {:induction false} StoreStep(c: Codec, i: Ingest, reader: nat, r: Row, n: nat)
    requires Within(i) && Accounted(i, r, n) && Can(i, StoreCursor(reader))
    ensures Accounted(Exec(c, i, StoreCursor(reader)), r, n)
  {
    var v, tail := i.store.View(), i.tails[reader];
    ViewAfter(c, i, StoreCursor(reader));
    assert TailWithin(i.store.files, tail);
    if tail.path == r.path {
      AccountedStore(Copies(v, r), v.CursorOf(r.path), i.tails, r, n, reader);
    } else {
      AccountedElsewhere(Copies(v, r), v.CursorOf(r.path), i.tails, i.tails - {reader}, r, n, reader);
    }
  }

  lemma {:induction false} CopiesAhead(db: Db, r: Row)
    requires !RowsAhead(db, r.path)
    ensures db.CursorOf(r.path) <= r.line.offset ==> Copies(db, r) == 0
  {
    assert r in db.tokens <==> Copies(db, r) > 0;
  }

  lemma {:induction false} CrashStep(c: Codec, i: Ingest, r: Row, n: nat)
    requires Accounted(i, r, n)
    ensures Accounted(Exec(c, i, Crash), r, n + if IsHarmful(i, Crash, r.path) then 1 else 0)
  {
    var v, db := i.store.View(), i.store.db;
    ViewAfter(c, i, Crash);
    FewerCopies(db, i.store.queue, r);
    if IsHarmful(i, Crash, r.path) {
      AccountedLoss(Copies(v, r), v.CursorOf(r.path), i.tails, r, n, Copies(db, r), db.CursorOf(r.path));
    } else if IsLossy(i, Crash) {
      CopiesAhead(db, r);
      AccountedFinished(Copies(v, r), v.CursorOf(r.path), i.tails, r, n, Copies(db, r), db.CursorOf(r.path));
    } else {
      AccountedQuietCrash(Copies(v, r), v.CursorOf(r.path), i.tails, r, n);
    }
  }

  lemma {:induction false} AccountedStep(c: Codec, i: Ingest, step: Step, r: Row, n: nat)
    requires Within(i) && Accounted(i, r, n)
    ensures Accounted(Exec(c, i, step), r,
                      n + (if IsOverlap(i, step, r.path) then 1 else 0) + (if IsHarmful(i, step, r.path) then 1 else 0))
  {
    if Can(i, step) {
      match step
      case Begin(reader, path) => BeginStep(c, i, reader, path, r, n);
      case ReadFile(reader) => ReadStep(c, i, reader, r, n);
      case EnqueueToken(reader) => TokenStep(c, i, reader, r, n);
      case WriteTrace(reader) => TraceStep(c, i, reader, r, n);
      case StoreCursor(reader) => StoreStep(c, i, reader, r, n);
      case Crash => CrashStep(c, i, r, n);
      case _ => ViewAfter(c, i, step);
    }
  }

  // ---------------------------------------------------------------------------------------------------
  // Whole runs
  // ---------------------------------------------------------------------------------------------------

  lemma {:induction false} AccountedRun(c: Codec, i: Ingest, steps: seq<Step>, r: Row, n: nat)
    requires !c.usage("") && Within(i) && Accounted(i, r, n)
    ensures Within(Run(c, i, steps))
    ensures Accounted(Run(c, i, steps), r, n + Overlaps(c, i, steps, r.path) + HarmfulCrashes(c, i, steps, r.path))
    decreases |steps|
  {
    if steps != [] {
      var before, last := steps[..|steps| - 1], steps[|steps| - 1];
      AccountedRun(c, i, before, r, n);
      WithinStep(c, Run(c, i, before), last);
      AccountedStep(c, Run(c, i, before), last, r,
                    n + Overlaps(c, i, before, r.path) + HarmfulCrashes(c, i, before, r.path));
    }
  }

  lemma {:induction false} NothingCounted(i: Ingest, r: Row)
    requires Fresh(i)
    ensures Within(i) && Accounted(i, r, 0)
  {
    assert OnPath(i.tails, r.path) == {};
  }

  lemma {:induction false} AccountBoundsCopies(i: Ingest, r: Row, n: nat)
    requires Accounted(i, r, n)
    ensures Copies(i.store.db, r) <= Copies(i.store.View(), r) <= n + 1
  {
    FewerCopies(i.store.db, i.store.queue, r);
  }

  /**
   However the files grow, however many readers there are, however their tails come between each other and whenever
   the process dies: no row is recorded more often than once, plus once per crash that lost work and left rows of its
   file ahead of the cursor, plus once per tail of its file that began while another one had not ended.
   */
  lemma {:induction false} DuplicationIsBounded(c: Codec, i: Ingest, steps: seq<Step>, r: Row)
    requires !c.usage("") && Fresh(i)
    ensures Copies(Run(c, i, steps).store.db, r)
         <= 1 + HarmfulCrashes(c, i, steps, r.path) + Overlaps(c, i, steps, r.path)
  {
    NothingCounted(i, r);
    AccountedRun(c, i, steps, r, 0);
    AccountBoundsCopies(Run(c, i, steps), r, Overlaps(c, i, steps, r.path) + HarmfulCrashes(c, i, steps, r.path));
  }
}
