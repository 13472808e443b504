/** One read of a session file. */
module SessionTail {
  // It reads one batch, and stores the cursor through the serial database queue.

  import opened SessionLines

  /** A row of `token_events`. The table stores no offset; it is kept here to tell copies of a row apart. */
  datatype Row = Row(path: string, line: Line)

  /** Work enqueued on the database's serial queue. */
  datatype Op = Token(row: Row) | Cursor(path: string, offset: nat)

  /** The committed tables: token rows, trace rows (deduplicated by a key derived from the line), cursors. */
  datatype Db = Db(tokens: seq<Row>, traces: set<Line>, cursors: map<string, nat>) {
    function CursorOf(path: string): nat {
      if path in cursors then cursors[path] else 0
    }
  }

  function Apply(db: Db, op: Op): Db {
    match op
    case Token(row) => db.(tokens := db.tokens + [row])
    case Cursor(path, offset) => db.(cursors := db.cursors[path := offset])
  }

  /** After the first `n` entries. */
  function ApplyTo(db: Db, ops: seq<Op>, n: nat): Db
    requires n <= |ops|
  {
    if n == 0 then db else Apply(ApplyTo(db, ops, n - 1), ops[n - 1])
  }

  function ApplyAll(db: Db, ops: seq<Op>): Db {
    ApplyTo(db, ops, |ops|)
  }

  /** The world a tail runs in: the files, the committed database, and the database's pending queue. */
  datatype Store = Store(files: map<string, string>, db: Db, queue: seq<Op>) {
    /** What the database will hold once the queue has run. */
    function View(): Db {
      ApplyAll(db, queue)
    }

    /** `queue.async`. */
    function Enqueued(op: Op): Store {
      this.(queue := queue + [op])
    }

    /** `queue.sync`: everything enqueued before runs first. */
    function Synced(): Store {
      this.(db := View(), queue := [])
    }

    /** The trace row is written synchronously; a row with the same key is already there. */
    function Traced(line: Line): Store {
      var s := Synced();
      s.(db := s.db.(traces := s.db.traces + {line}))
    }
  }

  function Content(files: map<string, string>, path: string): string {
    if path in files then files[path] else []
  }

  /** Where a read with the given stored cursor starts: a cursor past the end of the file restarts at 0. */
  function SeekTo(cursor: nat, size: nat): (seekTo: nat)
    ensures seekTo <= size
  {
    if 0 < cursor <= size then cursor else 0
  }

  /** What one read of a file finds: nothing new that decodes, or the usage lines up to its end. */
  datatype Window = Nothing | Window(lines: seq<Line>, end: nat)

  function Read(c: Codec, files: map<string, string>, path: string, cursor: nat): Window {
    var content := Content(files, path);
    var seekTo := SeekTo(cursor, |content|);
    if path !in files || seekTo == |content| || !c.decodes(content[seekTo..]) then Nothing
    else Window(UsageLines(c, content, seekTo, |content|), |content|)
  }

  /** Token row and trace row of each line from `from` up to `end`, one after the other. */
  function Emitted(s: Store, path: string, lines: seq<Line>, from: nat, end: nat): Store
    requires from <= end <= |lines|
    decreases end - from
  {
    if from == end then s
    else
      var last := lines[end - 1];
      Emitted(s, path, lines, from, end - 1).Enqueued(Token(Row(path, last))).Traced(last)
  }

  /** A whole tail that nothing comes between: the cursor is read, the file, and last the new cursor is enqueued. */
  function Tailed(c: Codec, s: Store, path: string): Store {
    var t := s.Synced();
    match Read(c, s.files, path, t.db.CursorOf(path))
    case Nothing => t
    case Window(lines, end) => Emitted(t, path, lines, 0, |lines|).Enqueued(Cursor(path, end))
  }

  datatype ReadResult = ReadResult(eventsEmitted: nat, newOffset: nat, resetFromBeginning: bool)

  /** The tail as the program runs it. */
  method Tail(c: Codec, s: Store, path: string) returns (after: Store, result: ReadResult)
    ensures after == Tailed(c, s, path)
    ensures var cursor := s.View().CursorOf(path);
      && result.newOffset == (if path in s.files then |s.files[path]| else cursor)
      && (result.resetFromBeginning <==> path in s.files && cursor > |s.files[path]|)
      && var window := Read(c, s.files, path, cursor);
         result.eventsEmitted == if window.Window? then |window.lines| else 0
  {
    after := s.Synced();
    var cursor := after.db.CursorOf(path);
    if path !in s.files {
      return after, ReadResult(0, cursor, false);
    }
    var content := s.files[path];
    var seekTo, reset := 0, false;
    if 0 < cursor <= |content| {
      seekTo := cursor;
    } else if cursor > |content| {
      reset := true;
    }
    if seekTo == |content| || !c.decodes(content[seekTo..]) {
      return after, ReadResult(0, |content|, reset);
    }
    var emitted: nat;
    after, emitted := EmitLines(c, after, path, content, seekTo);
    after := after.Enqueued(Cursor(path, |content|));
    result := ReadResult(emitted, |content|, reset);
  }

  /** The usage lines still ahead when the loop stands at `offset`. */
  ghost function Remaining(c: Codec, content: string, offset: nat): seq<Line> {
    if offset > |content| then [] else UsageLines(c, content, offset, |content|)
  }

  /** Where the loop stands: the lines of the window are written up to `emitted`, and those behind are still ahead. */
  ghost predicate WrittenTo(c: Codec, s: Store, path: string, content: string, all: seq<Line>,
                            after: Store, emitted: nat, offset: nat)
  {
    && emitted <= |all| && after == Emitted(s, path, all, 0, emitted)
    && all[emitted..] == Remaining(c, content, offset)
  }

  /** One line further: it is the next usage line, or there is nothing to record. */
  lemma {:induction false} OneLineFurther(c: Codec, s: Store, path: string, content: string, all: seq<Line>,
                                          after: Store, emitted: nat, offset: nat)
    requires offset <= |content| && WrittenTo(c, s, path, content, all, after, emitted, offset)
    ensures
      var k := NextNewline(content, offset, |content|);
      var line := Line(offset, content[offset..k]);
      if c.usage(line.text)
      then WrittenTo(c, s, path, content, all, after.Enqueued(Token(Row(path, line))).Traced(line), emitted + 1, k + 1)
      else WrittenTo(c, s, path, content, all, after, emitted, k + 1)
  {
    var k := NextNewline(content, offset, |content|);
    if c.usage(content[offset..k]) {
      assert all[emitted] == all[emitted..][0] && all[emitted + 1..] == all[emitted..][1..];
    }
  }

  /** The loop over the lines of the window, with the running byte offset of the current line. */
  method EmitLines(c: Codec, s: Store, path: string, content: string, seekTo: nat)
    returns (after: Store, emitted: nat)
    requires seekTo <= |content|
    ensures var lines := UsageLines(c, content, seekTo, |content|);
      after == Emitted(s, path, lines, 0, |lines|) && emitted == |lines|
  {
    after, emitted := s, 0;
    ghost var all := UsageLines(c, content, seekTo, |content|);
    var lineByteOffset := seekTo;
    while lineByteOffset <= |content|
      invariant seekTo <= lineByteOffset <= |content| + 1
      invariant WrittenTo(c, s, path, content, all, after, emitted, lineByteOffset)
    {
      var k := NextNewline(content, lineByteOffset, |content|);
      var line := Line(lineByteOffset, content[lineByteOffset..k]);
      OneLineFurther(c, s, path, content, all, after, emitted, lineByteOffset);
      if c.usage(line.text) {
        after := after.Enqueued(Token(Row(path, line)));
        after := after.Traced(line);
        emitted := emitted + 1;
      }
      lineByteOffset := k + 1;
    }
  }
}
