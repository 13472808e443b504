/** What the tables hold. */
module SessionCoverage {
  // Nothing is lost in front of a cursor, nothing is invented, and each line is there once.

  import opened SessionLines
  import opened SessionTail
  import opened SessionIngest

  // ---------------------------------------------------------------------------------------------------
  // Covered and genuine
  // ---------------------------------------------------------------------------------------------------

  predicate RecordedIn(db: Db, path: string, l: Line) {
    Row(path, l) in db.tokens && l in db.traces
  }

  /** A place where a line begins, with every usage line in front of it in both tables. */
  ghost predicate CoveredTo(c: Codec, files: map<string, string>, db: Db, path: string, end: nat) {
    && LineStart(Content(files, path), end)
    && forall l <- UsageLines(c, Content(files, path), 0, end) :: RecordedIn(db, path, l)
  }

  ghost predicate DbCovered(c: Codec, files: map<string, string>, db: Db) {
    forall path :: CoveredTo(c, files, db, path, db.CursorOf(path))
  }

  ghost predicate QueueCovered(c: Codec, files: map<string, string>, db: Db, queue: seq<Op>) {
    forall op <- queue :: op.Cursor? ==> CoveredTo(c, files, db, op.path, op.offset)
  }

  /** The window of a tail runs from one line start to another, and the lines it is done with are in both tables. */
  ghost predicate TailCovered(c: Codec, s: Store, t: InFlight) {
    && CoveredTo(c, s.files, s.db, t.path, t.cursor)
    && (t.Emitting? ==>
          && t.cursor <= t.end && LineStart(Content(s.files, t.path), t.end)
          && t.lines == UsageLines(c, Content(s.files, t.path), t.cursor, t.end)
          && t.next <= |t.lines| && (t.queued ==> t.next < |t.lines| && Row(t.path, t.lines[t.next]) in s.View().tokens)
          && forall k :: 0 <= k < t.next ==> RecordedIn(s.db, t.path, t.lines[k]))
  }

  ghost predicate TailsCovered(c: Codec, s: Store, tails: map<nat, InFlight>) {
    forall k <- tails :: TailCovered(c, s, tails[k])
  }

  /** A usage line of the text, complete with the newline that ends it. */
  predicate Terminated(c: Codec, text: string, l: Line) {
    var end := l.offset + |l.text|;
    && LineStart(text, l.offset) && end < |text| && text[l.offset..end] == l.text && text[end] == '\n'
    && '\n' !in l.text && c.usage(l.text)
  }

  ghost predicate Genuine(c: Codec, files: map<string, string>, tokens: seq<Row>, traces: set<Line>) {
    && (forall r <- tokens :: Terminated(c, Content(files, r.path), r.line))
    && (forall l <- traces :: exists path :: Terminated(c, Content(files, path), l))
  }

  ghost predicate CoverageInv(c: Codec, i: Ingest) {
    && DbCovered(c, i.store.files, i.store.db)
    && QueueCovered(c, i.store.files, i.store.db, i.store.queue)
    && TailsCovered(c, i.store, i.tails)
    && Genuine(c, i.store.files, i.store.View().tokens, i.store.View().traces)
  }

  /** A tail that reads something finds the file ending with a whole line. */
  ghost predicate ReadsWhole(c: Codec, i: Ingest, step: Step) {
    step.ReadFile? && Can(i, step) ==>
      var t := i.tails[step.reader];
      var content := Content(i.store.files, t.path);
      Read(c, i.store.files, t.path, t.cursor).Window? ==> LineStart(content, |content|)
  }

  ghost predicate WholeReads(c: Codec, i: Ingest, steps: seq<Step>)
    decreases |steps|
  {
    steps == [] ||
    (WholeReads(c, i, steps[..|steps| - 1]) && ReadsWhole(c, Run(c, i, steps[..|steps| - 1]), steps[|steps| - 1]))
  }

  // ---------------------------------------------------------------------------------------------------
  // Growing tables and files
  // ---------------------------------------------------------------------------------------------------

  ghost predicate Extends(a: Db, b: Db) {
    (forall r <- a.tokens :: r in b.tokens) && a.traces <= b.traces
  }

  lemma {:induction false} CoveredMore(c: Codec, files: map<string, string>, a: Db, b: Db, path: string, end: nat)
    requires CoveredTo(c, files, a, path, end) && Extends(a, b)
    ensures CoveredTo(c, files, b, path, end)
  {
    forall l | l in UsageLines(c, Content(files, path), 0, end) ensures RecordedIn(b, path, l)
    {
      assert RecordedIn(a, path, l);
    }
  }

  lemma {:induction false} SyncExtends(s: Store)
    ensures Extends(s.db, s.View())
  {
    ViewExtends(s.db, s.queue);
    assert forall r <- s.db.tokens :: r in s.View().tokens;
  }

  /** More in the committed tables, and no less in the view. */
  lemma {:induction false} TailCoveredMore(c: Codec, s: Store, u: Store, t: InFlight)
    requires TailCovered(c, s, t) && u.files == s.files && Extends(s.db, u.db) && Extends(s.View(), u.View())
    ensures TailCovered(c, u, t)
  {
    CoveredMore(c, s.files, s.db, u.db, t.path, t.cursor);
    if t.Emitting? {
      forall k | 0 <= k < t.next ensures RecordedIn(u.db, t.path, t.lines[k])
      {
        assert RecordedIn(s.db, t.path, t.lines[k]);
      }
    }
  }

  lemma {:induction false} Longer(files: map<string, string>, path: string, data: string, p: string)
    ensures var more := files[path := Content(files, path) + data];
      |Content(files, p)| <= |Content(more, p)| && Content(more, p)[..|Content(files, p)|] == Content(files, p)
  {
  }

  lemma {:induction false} CoveredGrown(c: Codec, files: map<string, string>, db: Db, path: string, data: string,
                                        p: string, end: nat)
    requires CoveredTo(c, files, db, p, end)
    ensures CoveredTo(c, files[path := Content(files, path) + data], db, p, end)
  {
    var more := files[path := Content(files, path) + data];
    Longer(files, path, data, p);
    WindowGrown(c, Content(files, p), Content(more, p), 0, end);
  }

  lemma {:induction false} WindowGrown(c: Codec, text: string, longer: string, from: nat, end: nat)
    requires |text| <= |longer| && longer[..|text|] == text && from <= end <= |text|
    ensures UsageLines(c, text, from, end) == UsageLines(c, longer, from, end)
    ensures LineStart(text, end) ==> LineStart(longer, end)
  {
    assert text[..end] == longer[..end] by {
      assert longer[..|text|][..end] == longer[..end];
    }
    UsageLinesFrame(c, text, longer, from, end);
    assert end > 0 ==> longer[..|text|][end - 1] == longer[end - 1];
  }

  lemma {:induction false} TailGrown(c: Codec, s: Store, path: string, data: string, t: InFlight)
    requires TailCovered(c, s, t)
    ensures TailCovered(c, s.(files := s.files[path := Content(s.files, path) + data]), t)
  {
    var more := s.files[path := Content(s.files, path) + data];
    CoveredGrown(c, s.files, s.db, path, data, t.path, t.cursor);
    if t.Emitting? {
      Longer(s.files, path, data, t.path);
      WindowGrown(c, Content(s.files, t.path), Content(more, t.path), t.cursor, t.end);
    }
  }

  lemma {:induction false} TerminatedGrown(c: Codec, files: map<string, string>, path: string, data: string,
                                           p: string, l: Line)
    requires Terminated(c, Content(files, p), l)
    ensures Terminated(c, Content(files[path := Content(files, path) + data], p), l)
  {
    var text, longer := Content(files, p), Content(files[path := Content(files, path) + data], p);
    Longer(files, path, data, p);
    var end := l.offset + |l.text|;
    assert longer[..|text|][l.offset..end] == longer[l.offset..end];
    assert longer[..|text|][end] == longer[end];
    assert l.offset > 0 ==> longer[..|text|][l.offset - 1] == longer[l.offset - 1];
  }

  /** Between two line starts, every usage line is complete. */
  lemma {:induction false} WindowIsTerminated(c: Codec, text: string, from: nat, end: nat, l: Line)
    requires !c.usage("") && from <= end && LineStart(text, from) && LineStart(text, end)
    requires l in UsageLines(c, text, from, end)
    ensures Terminated(c, text, l)
  {
    UsageLinesExactly(c, text, from, end, l);
    UsageLinesAscend(c, text, from, end);
    var lines := UsageLines(c, text, from, end);
    var k :| 0 <= k < |lines| && lines[k] == l;
    assert lines[k].offset < end;
    LineEnds(c, text, from, end, l);
  }

  lemma {:induction false} LineEnds(c: Codec, text: string, from: nat, end: nat, l: Line)
    requires from <= l.offset < end && LineStart(text, from) && LineStart(text, end)
    requires IsUsageLine(c, text, from, end, l)
    ensures Terminated(c, text, l)
  {
    var stop := NextNewline(text, l.offset, end);
    assert text[end - 1] == '\n';
    assert l.offset <= stop < end && text[stop] == '\n' && l.text == text[l.offset..stop];
  }

  // ---------------------------------------------------------------------------------------------------
  // One step
  // ---------------------------------------------------------------------------------------------------

  lemma {:induction false} CoverageAppend(c: Codec, i: Ingest, path: string, data: string)
    requires CoverageInv(c, i)
    ensures CoverageInv(c, Exec(c, i, Append(path, data)))
  {
    var s, t := i.store, Exec(c, i, Append(path, data)).store;
    ViewAfter(c, i, Append(path, data));
    forall p ensures CoveredTo(c, t.files, t.db, p, t.db.CursorOf(p))
    {
      CoveredGrown(c, s.files, s.db, path, data, p, s.db.CursorOf(p));
    }
    forall op | op in t.queue && op.Cursor? ensures CoveredTo(c, t.files, t.db, op.path, op.offset)
    {
      CoveredGrown(c, s.files, s.db, path, data, op.path, op.offset);
    }
    forall k | k in i.tails ensures TailCovered(c, t, i.tails[k])
    {
      TailGrown(c, s, path, data, i.tails[k]);
    }
    GenuineGrown(c, s.files, path, data, s.View().tokens, s.View().traces);
  }

  lemma {:induction false} GenuineGrown(c: Codec, files: map<string, string>, path: string, data: string,
                                        tokens: seq<Row>, traces: set<Line>)
    requires Genuine(c, files, tokens, traces)
    ensures Genuine(c, files[path := Content(files, path) + data], tokens, traces)
  {
    var more := files[path := Content(files, path) + data];
    forall r | r in tokens ensures Terminated(c, Content(more, r.path), r.line)
    {
      TerminatedGrown(c, files, path, data, r.path, r.line);
    }
    forall l | l in traces ensures exists p :: Terminated(c, Content(more, p), l)
    {
      var p :| Terminated(c, Content(files, p), l);
      TerminatedGrown(c, files, path, data, p, l);
    }
  }

  /** Whatever ran or was written, as long as tables grow and cursors go to covered places only. */
  lemma {:induction false} CoverageOfTables(c: Codec, s: Store, u: Store, tails: map<nat, InFlight>)
    requires DbCovered(c, s.files, s.db) && QueueCovered(c, s.files, s.db, s.queue) && TailsCovered(c, s, tails)
    requires u.files == s.files && Extends(s.db, u.db) && Extends(s.View(), u.View())
    requires forall p :: u.db.CursorOf(p) == s.db.CursorOf(p) || Cursor(p, u.db.CursorOf(p)) in s.queue
    requires forall op <- u.queue :: op.Cursor? ==> op in s.queue || CoveredTo(c, s.files, s.db, op.path, op.offset)
    ensures DbCovered(c, u.files, u.db) && QueueCovered(c, u.files, u.db, u.queue) && TailsCovered(c, u, tails)
  {
    forall p ensures CoveredTo(c, u.files, u.db, p, u.db.CursorOf(p))
    {
      assert CoveredTo(c, s.files, s.db, p, u.db.CursorOf(p));
      CoveredMore(c, s.files, s.db, u.db, p, u.db.CursorOf(p));
    }
    forall op | op in u.queue && op.Cursor? ensures CoveredTo(c, u.files, u.db, op.path, op.offset)
    {
      CoveredMore(c, s.files, s.db, u.db, op.path, op.offset);
    }
    forall k | k in tails ensures TailCovered(c, u, tails[k])
    {
      TailCoveredMore(c, s, u, tails[k]);
    }
  }

  lemma {:induction false} CoverageSynced(c: Codec, i: Ingest)
    requires CoverageInv(c, i)
    ensures CoverageInv(c, i.(store := i.store.Synced()))
  {
    var s := i.store;
    Views(s, Cursor("", 0), Line(0, ""));
    ViewExtends(s.db, s.queue);
    SyncExtends(s);
    CoverageOfTables(c, s, s.Synced(), i.tails);
  }

  lemma {:induction false} CoverageBegin(c: Codec, i: Ingest, reader: nat, path: string)
    requires CoverageInv(c, i) && Can(i, Begin(reader, path))
    ensures CoverageInv(c, Exec(c, i, Begin(reader, path)))
  {
    CoverageSynced(c, i);
    var t := i.store.Synced();
    assert CoveredTo(c, t.files, t.db, path, t.db.CursorOf(path));
  }

  lemma {:induction false} CoverageRead(c: Codec, i: Ingest, reader: nat)
    requires !c.usage("") && Within(i) && CoverageInv(c, i) && Can(i, ReadFile(reader))
      && ReadsWhole(c, i, ReadFile(reader))
    ensures CoverageInv(c, Exec(c, i, ReadFile(reader)))
  {
    var t := i.tails[reader];
    assert TailCovered(c, i.store, t) && TailWithin(i.store.files, t);
    ReadIsWithin(c, i.store.files, t.path, t.cursor);
  }

  lemma {:induction false} CoverageToken(c: Codec, i: Ingest, reader: nat)
    requires !c.usage("") && CoverageInv(c, i) && Can(i, EnqueueToken(reader))
    ensures CoverageInv(c, Exec(c, i, EnqueueToken(reader)))
  {
    var s, t := i.store, i.tails[reader];
    var row := Row(t.path, t.lines[t.next]);
    var u := s.Enqueued(Token(row));
    assert TailCovered(c, s, t);
    Views(s, Token(row), Line(0, ""));
    CoverageOfTables(c, s, u, i.tails);
    WindowIsTerminated(c, Content(s.files, t.path), t.cursor, t.end, t.lines[t.next]);
    assert TailCovered(c, u, t.(queued := true));
  }

  lemma {:induction false} CoverageTrace(c: Codec, i: Ingest, reader: nat)
    requires !c.usage("") && CoverageInv(c, i) && Can(i, WriteTrace(reader))
    ensures CoverageInv(c, Exec(c, i, WriteTrace(reader)))
  {
    var s, t := i.store, i.tails[reader];
    var l := t.lines[t.next];
    var u, after := s.Traced(l), t.(next := t.next + 1, queued := false);
    assert TailCovered(c, s, t);
    Views(s, Cursor("", 0), l);
    ViewExtends(s.db, s.queue);
    SyncExtends(s);
    CoverageOfTables(c, s, u, i.tails);
    WindowIsTerminated(c, Content(s.files, t.path), t.cursor, t.end, l);
    assert TailCovered(c, u, t);
    TracedTail(c, s, t);
    assert TailCovered(c, u, after);
  }

  /** With its trace row written, a line is in both tables. */
  lemma {:induction false} TracedTail(c: Codec, s: Store, t: InFlight)
    requires TailCovered(c, s, t) && t.Emitting? && t.queued
    requires TailCovered(c, s.Traced(t.lines[t.next]), t)
    ensures TailCovered(c, s.Traced(t.lines[t.next]), t.(next := t.next + 1, queued := false))
  {
    var u := s.Traced(t.lines[t.next]);
    assert u.db == u.View();
    forall k | 0 <= k < t.next + 1 ensures RecordedIn(u.db, t.path, t.lines[k])
    {
      assert k < t.next ==> RecordedIn(u.db, t.path, t.lines[k]);
    }
  }

  lemma {:induction false} CoverageStore(c: Codec, i: Ingest, reader: nat)
    requires !c.usage("") && CoverageInv(c, i) && Can(i, StoreCursor(reader))
    ensures CoverageInv(c, Exec(c, i, StoreCursor(reader)))
  {
    var s, t := i.store, i.tails[reader];
    assert TailCovered(c, s, t);
    UsageLinesSplit(c, Content(s.files, t.path), 0, t.cursor, t.end);
    forall l | l in UsageLines(c, Content(s.files, t.path), 0, t.end) ensures RecordedIn(s.db, t.path, l)
    {
      if l in t.lines {
        var k :| 0 <= k < |t.lines| && t.lines[k] == l;
      }
    }
    Views(s, Cursor(t.path, t.end), Line(0, ""));
    CoverageOfTables(c, s, s.Enqueued(Cursor(t.path, t.end)), i.tails);
  }

  lemma {:induction false} CoverageCommit(c: Codec, i: Ingest)
    requires CoverageInv(c, i) && Can(i, Commit)
    ensures CoverageInv(c, Exec(c, i, Commit))
  {
    var s, u := i.store, Exec(c, i, Commit).store;
    ViewAfter(c, i, Commit);
    assert s.queue[0] in s.queue && forall op <- s.queue[1..] :: op in s.queue;
    CoverageOfTables(c, s, u, i.tails);
  }

  lemma {:induction false} CoverageCrash(c: Codec, i: Ingest)
    requires CoverageInv(c, i)
    ensures CoverageInv(c, Exec(c, i, Crash))
  {
    ViewAfter(c, i, Crash);
    SyncExtends(i.store);
  }

  lemma {:induction false} CoverageStep(c: Codec, i: Ingest, step: Step)
    requires !c.usage("") && Within(i) && CoverageInv(c, i) && ReadsWhole(c, i, step)
    ensures CoverageInv(c, Exec(c, i, step))
  {
    if Can(i, step) {
      match step
      case Append(path, data) => CoverageAppend(c, i, path, data);
      case Begin(reader, path) => CoverageBegin(c, i, reader, path);
      case ReadFile(reader) => CoverageRead(c, i, reader);
      case EnqueueToken(reader) => CoverageToken(c, i, reader);
      case WriteTrace(reader) => CoverageTrace(c, i, reader);
      case StoreCursor(reader) => CoverageStore(c, i, reader);
      case Commit => CoverageCommit(c, i);
      case Crash => CoverageCrash(c, i);
    }
  }

  // ---------------------------------------------------------------------------------------------------
  // Exactly once
  // ---------------------------------------------------------------------------------------------------

  /** The lines recorded for a file, in the order the rows were written. */
  function Recorded(tokens: seq<Row>, path: string): seq<Line>
    decreases |tokens|
  {
    if tokens == [] then []
    else
      var front, last := Recorded(tokens[..|tokens| - 1], path), tokens[|tokens| - 1];
      if last.path == path then front + [last.line] else front
  }

  lemma {:induction false} RecordedSnoc(tokens: seq<Row>, row: Row, path: string)
    ensures Recorded(tokens + [row], path) == Recorded(tokens, path) + if row.path == path then [row.line] else []
  {
    assert (tokens + [row])[..|tokens|] == tokens;
  }

  function Written(t: InFlight): seq<Line> {
    if t.Emitting? && t.Done() <= |t.lines| then t.lines[..t.Done()] else []
  }

  /** The usage lines of a file up to a place in it. */
  ghost function Seen(c: Codec, files: map<string, string>, path: string, end: nat): seq<Line> {
    if end <= |Content(files, path)| then UsageLines(c, Content(files, path), 0, end) else []
  }

  /** At most one tail of the file is under way, from the cursor on, and what it has written comes behind the rest. */
  ghost predicate ExactlyOnceIn(c: Codec, files: map<string, string>, v: Db, tails: map<nat, InFlight>, path: string) {
    var cursor := v.CursorOf(path);
    if OnPath(tails, path) == {} then Recorded(v.tokens, path) == Seen(c, files, path, cursor)
    else exists k ::
      && OnPath(tails, path) == {k} && k in tails && tails[k].cursor == cursor
      && Recorded(v.tokens, path) == Seen(c, files, path, cursor) + Written(tails[k])
  }

  /** The rows of a file are its usage lines up to the cursor, and what a tail under way has added. */
  ghost predicate ExactlyOnce(c: Codec, i: Ingest, path: string) {
    ExactlyOnceIn(c, i.store.files, i.store.View(), i.tails, path)
  }

  /** A tail goes to another stage with the same lines written. */
  lemma {:induction false} OnceSame(c: Codec, files: map<string, string>, v: Db, u: Db, tails: map<nat, InFlight>,
                                    path: string, k: nat, t: InFlight)
    requires ExactlyOnceIn(c, files, v, tails, path) && k in tails
    requires t.path == tails[k].path && t.cursor == tails[k].cursor && u.cursors == v.cursors
    requires t.path != path ==> Recorded(u.tokens, path) == Recorded(v.tokens, path)
    requires t.path == path ==>
      exists more ::
        Recorded(u.tokens, path) == Recorded(v.tokens, path) + more && Written(t) == Written(tails[k]) + more
    ensures ExactlyOnceIn(c, files, u, tails[k := t], path)
  {
    var other := tails[k := t];
    assert OnPath(other, path) == OnPath(tails, path);
    assert u.CursorOf(path) == v.CursorOf(path);
    if OnPath(tails, path) != {} {
      var j :| OnPath(tails, path) == {j} && j in tails && tails[j].cursor == v.CursorOf(path)
        && Recorded(v.tokens, path) == Seen(c, files, path, v.CursorOf(path)) + Written(tails[j]);
      if t.path == path {
        assert k in OnPath(tails, path);
        var more :| Recorded(u.tokens, path) == Recorded(v.tokens, path) + more
          && Written(t) == Written(tails[k]) + more;
        AppendAssoc(Seen(c, files, path, v.CursorOf(path)), Written(tails[k]), more);
      } else {
        assert k != j by {
          assert j in OnPath(tails, path);
        }
      }
      assert OnPath(other, path) == {j} && other[j].cursor == u.CursorOf(path);
    }
  }

  /** The same with no row written in between. */
  lemma {:induction false} OnceUnwritten(c: Codec, files: map<string, string>, v: Db, u: Db, tails: map<nat, InFlight>,
                                         path: string, k: nat, t: InFlight)
    requires ExactlyOnceIn(c, files, v, tails, path) && k in tails
    requires t.path == tails[k].path && t.cursor == tails[k].cursor && Written(t) == Written(tails[k])
    requires u.cursors == v.cursors && u.tokens == v.tokens
    ensures ExactlyOnceIn(c, files, u, tails[k := t], path)
  {
    var none: seq<Line> := [];
    assert Recorded(u.tokens, path) == Recorded(v.tokens, path) + none && Written(t) == Written(tails[k]) + none;
    OnceSame(c, files, v, u, tails, path, k, t);
  }

  lemma {:induction false} OnceBegin(c: Codec, files: map<string, string>, v: Db, tails: map<nat, InFlight>,
                                     path: string, k: nat, p: string)
    requires ExactlyOnceIn(c, files, v, tails, path) && k !in tails && (p == path ==> OnPath(tails, path) == {})
    ensures ExactlyOnceIn(c, files, v, tails[k := Begun(p, v.CursorOf(p))], path)
  {
    var more := tails[k := Begun(p, v.CursorOf(p))];
    if p == path {
      assert OnPath(more, path) == {k};
      assert Written(more[k]) == [];
    } else {
      assert OnPath(more, path) == OnPath(tails, path);
      assert forall j <- OnPath(tails, path) :: more[j] == tails[j];
    }
  }

  /** A tail ends: quietly with nothing written, or with its cursor stored behind all its lines. */
  lemma {:induction false} OnceEnd(c: Codec, files: map<string, string>, v: Db, u: Db, tails: map<nat, InFlight>,
                                   path: string, k: nat)
    requires ExactlyOnceIn(c, files, v, tails, path) && k in tails && u.tokens == v.tokens
    requires tails[k].path != path ==> u.CursorOf(path) == v.CursorOf(path)
    requires tails[k].path == path ==>
      Seen(c, files, path, u.CursorOf(path)) == Seen(c, files, path, tails[k].cursor) + Written(tails[k])
    ensures ExactlyOnceIn(c, files, u, tails - {k}, path)
  {
    var rest := tails - {k};
    assert OnPath(rest, path) == OnPath(tails, path) - {k};
    assert tails[k].path == path ==> k in OnPath(tails, path);
    if OnPath(tails, path) != {} {
      var j :| OnPath(tails, path) == {j} && j in tails && tails[j].cursor == v.CursorOf(path)
        && Recorded(v.tokens, path) == Seen(c, files, path, v.CursorOf(path)) + Written(tails[j]);
      if tails[k].path == path {
        assert j == k && OnPath(rest, path) == {};
      } else {
        assert j in OnPath(tails, path) && j != k;
        assert OnPath(rest, path) == {j} && rest[j] == tails[j];
      }
    }
  }

  lemma {:induction false} OnceAppend(c: Codec, i: Ingest, path: string, data: string, p: string)
    requires Within(i) && ExactlyOnce(c, i, p)
    ensures ExactlyOnce(c, Exec(c, i, Append(path, data)), p)
  {
    var s, t := i.store, Exec(c, i, Append(path, data)).store;
    ViewAfter(c, i, Append(path, data));
    ViewWithin(i);
    var cursor := s.View().CursorOf(p);
    assert cursor <= |Content(s.files, p)|;
    Longer(s.files, path, data, p);
    WindowGrown(c, Content(s.files, p), Content(t.files, p), 0, cursor);
    assert Seen(c, t.files, p, cursor) == Seen(c, s.files, p, cursor);
  }

  lemma {:induction false} OnceRead(c: Codec, i: Ingest, reader: nat, p: string)
    requires !c.usage("") && Within(i) && ExactlyOnce(c, i, p) && Can(i, ReadFile(reader))
    ensures ExactlyOnce(c, Exec(c, i, ReadFile(reader)), p)
  {
    var v, t := i.store.View(), i.tails[reader];
    ViewAfter(c, i, ReadFile(reader));
    match Read(c, i.store.files, t.path, t.cursor)
    case Nothing =>
      assert Written(t) == [];
      BegunAtCursor(c, i, reader, p);
      OnceEnd(c, i.store.files, v, v, i.tails, p, reader);
    case Window(lines, end) =>
      var after := Emitting(t.path, t.cursor, end, lines, 0, false);
      assert Written(after) == [] && Written(t) == [];
      OnceUnwritten(c, i.store.files, v, v, i.tails, p, reader, after);
  }

  lemma {:induction false} BegunAtCursor(c: Codec, i: Ingest, k: nat, p: string)
    requires ExactlyOnce(c, i, p) && k in i.tails
    ensures i.tails[k].path == p ==> i.tails[k].cursor == i.store.View().CursorOf(p)
  {
    if i.tails[k].path == p {
      assert k in OnPath(i.tails, p);
    }
  }

  lemma {:induction false} OnceToken(c: Codec, i: Ingest, reader: nat, p: string)
    requires ExactlyOnce(c, i, p) && Can(i, EnqueueToken(reader))
    ensures ExactlyOnce(c, Exec(c, i, EnqueueToken(reader)), p)
  {
    var v, t := i.store.View(), i.tails[reader];
    var row, after := Row(t.path, t.lines[t.next]), t.(queued := true);
    ViewAfter(c, i, EnqueueToken(reader));
    RecordedSnoc(v.tokens, row, p);
    assert Written(after) == Written(t) + [row.line];
    OnceSame(c, i.store.files, v, Apply(v, Token(row)), i.tails, p, reader, after);
  }

  lemma {:induction false} OnceTrace(c: Codec, i: Ingest, reader: nat, p: string)
    requires ExactlyOnce(c, i, p) && Can(i, WriteTrace(reader))
    ensures ExactlyOnce(c, Exec(c, i, WriteTrace(reader)), p)
  {
    var v, t := i.store.View(), i.tails[reader];
    var after := t.(next := t.next + 1, queued := false);
    ViewAfter(c, i, WriteTrace(reader));
    assert after.Done() == t.Done() && Written(after) == Written(t);
    OnceUnwritten(c, i.store.files, v, v.(traces := v.traces + {t.lines[t.next]}), i.tails, p, reader, after);
  }

  lemma {:induction false} OnceStore(c: Codec, i: Ingest, reader: nat, p: string)
    requires !c.usage("") && CoverageInv(c, i) && ExactlyOnce(c, i, p) && Can(i, StoreCursor(reader))
    ensures ExactlyOnce(c, Exec(c, i, StoreCursor(reader)), p)
  {
    var v, t := i.store.View(), i.tails[reader];
    ViewAfter(c, i, StoreCursor(reader));
    assert TailCovered(c, i.store, t);
    UsageLinesSplit(c, Content(i.store.files, t.path), 0, t.cursor, t.end);
    assert Written(t) == t.lines;
    OnceEnd(c, i.store.files, v, Apply(v, Cursor(t.path, t.end)), i.tails, p, reader);
  }

  /** A crash that lost nothing. */
  lemma {:induction false} OnceQuietCrash(c: Codec, i: Ingest, p: string)
    requires ExactlyOnce(c, i, p) && !IsLossy(i, Crash)
    ensures ExactlyOnce(c, Exec(c, i, Crash), p)
  {
    ViewAfter(c, i, Crash);
    assert OnPath(map[], p) == {};
    if k :| k in OnPath(i.tails, p) {
      assert i.tails[k].Done() == 0 && Written(i.tails[k]) == [];
    }
  }

  lemma {:induction false} RecordedPrefix(a: seq<Row>, b: seq<Row>, path: string)
    requires a <= b
    ensures Recorded(a, path) <= Recorded(b, path)
    decreases |b|
  {
    if a != b {
      RecordedPrefix(a, b[..|b| - 1], path);
    }
  }

  lemma {:induction false} RecordedHas(tokens: seq<Row>, path: string, l: Line)
    ensures l in Recorded(tokens, path) <==> Row(path, l) in tokens
    decreases |tokens|
  {
    if tokens != [] {
      var front, last := tokens[..|tokens| - 1], tokens[|tokens| - 1];
      RecordedHas(front, path, l);
      assert tokens == front + [last];
    }
  }

  /** The usage lines up to a line start come first among all usage lines of the file. */
  lemma {:induction false} SeenFirst(c: Codec, text: string, end: nat)
    requires !c.usage("") && LineStart(text, end)
    ensures UsageLines(c, text, 0, end) <= UsageLines(c, text, 0, |text|)
  {
    UsageLinesSplit(c, text, 0, end, |text|);
  }

  /** What has been recorded once and in order is the beginning of all usage lines of the file. */
  lemma {:induction false} OnceIsPrefix(c: Codec, i: Ingest, p: string)
    requires !c.usage("") && CoverageInv(c, i) && ExactlyOnce(c, i, p)
    ensures var text := Content(i.store.files, p);
      Recorded(i.store.View().tokens, p) <= UsageLines(c, text, 0, |text|)
  {
    var s, v, text := i.store, i.store.View(), Content(i.store.files, p);
    var cursor := v.CursorOf(p);
    ViewCovered(c, i, p);
    SeenFirst(c, text, cursor);
    if OnPath(i.tails, p) != {} {
      var k :| OnPath(i.tails, p) == {k} && k in i.tails && i.tails[k].cursor == cursor
        && Recorded(v.tokens, p) == Seen(c, s.files, p, cursor) + Written(i.tails[k]);
      assert k in OnPath(i.tails, p);
      WrittenFollows(c, s, i.tails[k]);
    }
  }

  /** The cursor that will be stored is a covered one. */
  lemma {:induction false} ViewCovered(c: Codec, i: Ingest, p: string)
    requires CoverageInv(c, i)
    ensures CoveredTo(c, i.store.files, i.store.db, p, i.store.View().CursorOf(p))
  {
    ViewExtends(i.store.db, i.store.queue);
  }

  /** What a tail has written comes behind the usage lines up to its cursor. */
  lemma {:induction false} WrittenFollows(c: Codec, s: Store, t: InFlight)
    requires !c.usage("") && TailCovered(c, s, t)
    ensures var text := Content(s.files, t.path);
      UsageLines(c, text, 0, t.cursor) + Written(t) <= UsageLines(c, text, 0, |text|)
  {
    var text := Content(s.files, t.path);
    SeenFirst(c, text, t.cursor);
    if t.Emitting? {
      UsageLinesSplit(c, text, 0, t.cursor, t.end);
      SeenFirst(c, text, t.end);
      assert Written(t) <= t.lines;
    }
  }

  /** A complete line in front of a line start is among the usage lines up to there. */
  lemma {:induction false} TerminatedBefore(c: Codec, text: string, end: nat, l: Line)
    requires Terminated(c, text, l) && LineStart(text, end) && l.offset < end
    ensures l in UsageLines(c, text, 0, end)
  {
    var stop := l.offset + |l.text|;
    assert forall j :: l.offset <= j < stop ==> text[j] == l.text[j - l.offset] && l.text[j - l.offset] in l.text;
    assert stop < end;
    NextNewlineIs(text, l.offset, end, stop);
    UsageLinesExactly(c, text, 0, end, l);
  }

  lemma {:induction false} NextIsNew(a: seq<Line>, all: seq<Line>, end: nat)
    requires a <= all && |a| < |all| && Ascending(all, 0, end)
    ensures all[|a|] !in a
  {
    forall j | 0 <= j < |a| ensures a[j] != all[|a|]
    {
      assert a[j] == all[j];
    }
  }

  /** Of two beginnings of the same ascending lines, one that holds no line more is no longer. */
  lemma {:induction false} NotLonger(a: seq<Line>, b: seq<Line>, all: seq<Line>, end: nat)
    requires a <= all && b <= all && Ascending(all, 0, end)
    requires forall l <- b :: l in a
    ensures |b| <= |a|
  {
    assert |a| < |b| ==> all[|a|] == b[|a|] && b[|a|] in b;
    if |a| < |all| {
      NextIsNew(a, all, end);
    }
  }

  /** With no row of the file ahead of its cursor, the rows committed are its usage lines up to there. */
  lemma {:induction false} CommittedOnce(c: Codec, i: Ingest, p: string)
    requires !c.usage("") && CoverageInv(c, i) && ExactlyOnce(c, i, p) && !RowsAhead(i.store.db, p)
    ensures i.store.db.CursorOf(p) <= |Content(i.store.files, p)|
    ensures Recorded(i.store.db.tokens, p) == UsageLines(c, Content(i.store.files, p), 0, i.store.db.CursorOf(p))
  {
    var s, text := i.store, Content(i.store.files, p);
    var cursor := s.db.CursorOf(p);
    var left, seen, all := Recorded(s.db.tokens, p), UsageLines(c, text, 0, cursor), UsageLines(c, text, 0, |text|);
    ViewExtends(s.db, s.queue);
    RecordedPrefix(s.db.tokens, s.View().tokens, p);
    OnceIsPrefix(c, i, p);
    assert CoveredTo(c, s.files, s.db, p, cursor);
    SeenFirst(c, text, cursor);
    UsageLinesAscend(c, text, 0, |text|);
    forall l ensures l in left <==> l in seen
    {
      LeftIsSeen(c, i, p, l);
    }
    NotLonger(left, seen, all, |text|);
    NotLonger(seen, left, all, |text|);
  }

  lemma {:induction false} OnceFinishedCrash(c: Codec, i: Ingest, p: string)
    requires !c.usage("") && CoverageInv(c, i) && ExactlyOnce(c, i, p) && !RowsAhead(i.store.db, p)
    ensures ExactlyOnce(c, Exec(c, i, Crash), p)
  {
    ViewAfter(c, i, Crash);
    CommittedOnce(c, i, p);
    OnceIdle(c, i.store.files, i.store.db, p);
  }

  lemma {:induction false} OnceIdle(c: Codec, files: map<string, string>, v: Db, p: string)
    requires v.CursorOf(p) <= |Content(files, p)|
    requires Recorded(v.tokens, p) == UsageLines(c, Content(files, p), 0, v.CursorOf(p))
    ensures ExactlyOnceIn(c, files, v, map[], p)
  {
    assert OnPath(map[], p) == {};
  }

  lemma {:induction false} LeftIsSeen(c: Codec, i: Ingest, p: string, l: Line)
    requires CoverageInv(c, i) && !RowsAhead(i.store.db, p)
    ensures var s := i.store;
      l in Recorded(s.db.tokens, p) <==> l in UsageLines(c, Content(s.files, p), 0, s.db.CursorOf(p))
  {
    var s := i.store;
    var cursor := s.db.CursorOf(p);
    RecordedHas(s.db.tokens, p, l);
    SyncExtends(s);
    assert CoveredTo(c, s.files, s.db, p, cursor);
    if Row(p, l) in s.db.tokens {
      assert Row(p, l) in s.View().tokens;
      TerminatedBefore(c, Content(s.files, p), cursor, l);
    }
  }

  lemma {:induction false} OnceStep(c: Codec, i: Ingest, step: Step, p: string)
    requires !c.usage("") && Within(i) && CoverageInv(c, i) && ExactlyOnce(c, i, p)
    requires !IsOverlap(i, step, p) && !IsHarmful(i, step, p)
    ensures ExactlyOnce(c, Exec(c, i, step), p)
  {
    if Can(i, step) {
      match step
      case Append(path, data) => OnceAppend(c, i, path, data, p);
      case Begin(reader, path) =>
        ViewAfter(c, i, step);
        OnceBegin(c, i.store.files, i.store.View(), i.tails, p, reader, path);
      case ReadFile(reader) => OnceRead(c, i, reader, p);
      case EnqueueToken(reader) => OnceToken(c, i, reader, p);
      case WriteTrace(reader) => OnceTrace(c, i, reader, p);
      case StoreCursor(reader) => OnceStore(c, i, reader, p);
      case Commit => ViewAfter(c, i, step);
      case Crash =>
        if RowsAhead(i.store.db, p) {
          OnceQuietCrash(c, i, p);
        } else {
          OnceFinishedCrash(c, i, p);
        }
    }
  }

  // ---------------------------------------------------------------------------------------------------
  // Whole runs
  // ---------------------------------------------------------------------------------------------------

  lemma {:induction false} NothingRead(c: Codec, i: Ingest, p: string)
    requires !c.usage("") && Fresh(i)
    ensures Within(i) && CoverageInv(c, i) && ExactlyOnce(c, i, p)
  {
    forall path ensures UsageLines(c, Content(i.store.files, path), 0, 0) == []
    {
      assert Content(i.store.files, path)[0..0] == "";
    }
    assert OnPath(i.tails, p) == {};
  }

  lemma {:induction false} IngestInvariant(c: Codec, i: Ingest, steps: seq<Step>, p: string)
    requires !c.usage("") && Fresh(i) && WholeReads(c, i, steps)
    ensures var t := Run(c, i, steps); Within(t) && CoverageInv(c, t)
    ensures HarmfulCrashes(c, i, steps, p) == 0 && Overlaps(c, i, steps, p) == 0 ==>
      ExactlyOnce(c, Run(c, i, steps), p)
    decreases |steps|
  {
    if steps == [] {
      NothingRead(c, i, p);
    } else {
      var before, last := steps[..|steps| - 1], steps[|steps| - 1];
      IngestInvariant(c, i, before, p);
      var r := Run(c, i, before);
      WithinStep(c, r, last);
      CoverageStep(c, r, last);
      if HarmfulCrashes(c, i, steps, p) == 0 && Overlaps(c, i, steps, p) == 0 {
        OnceStep(c, r, last, p);
      }
    }
  }

  /**
   The ingest over whole runs, from an empty database, with any number of readers, as long as every tail that reads
   something finds the file ending with a whole line. In every reachable state both committed tables hold every usage
   line in front of each committed cursor, and nothing but complete usage lines of the files. And the rows of a file
   whose tails have not overlapped and whose rows no crash left ahead of the cursor are its usage lines up to the
   cursor, each once and in order, followed by what a tail under way has written.
   */
  lemma {:induction false} IngestGuarantees(c: Codec, i: Ingest, steps: seq<Step>, p: string)
    requires !c.usage("") && Fresh(i) && WholeReads(c, i, steps)
    ensures var t := Run(c, i, steps);
      && CoveredTo(c, t.store.files, t.store.db, p, t.store.db.CursorOf(p))
      && Genuine(c, t.store.files, t.store.db.tokens, t.store.db.traces)
      && (HarmfulCrashes(c, i, steps, p) == 0 && Overlaps(c, i, steps, p) == 0 ==> ExactlyOnce(c, t, p))
  {
    IngestInvariant(c, i, steps, p);
    SyncExtends(Run(c, i, steps).store);
  }
}
