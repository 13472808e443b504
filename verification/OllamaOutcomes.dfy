/** How a pull ends. */
module OllamaOutcomes {
  // What the drawer shows for a tag after its process has exited: decided by the exit code, by what the lines delivered
  // and the trailing bytes carried, and by the listing it may have to wait for.

  import opened Options
  import opened Text
  import opened LineBuffer
  import opened OllamaPullOutput
  import opened OllamaLines
  import opened OllamaPull

  // ---------------------------------------------------------------------------------------------------
  // The lines of a record
  // ---------------------------------------------------------------------------------------------------

  /** All lines of the batches, in order. */
  function AllLines(batches: seq<Batch>): seq<string>
    decreases |batches|
  {
    if batches == [] then [] else AllLines(batches[..|batches| - 1]) + batches[|batches| - 1].lines
  }

  lemma {:induction false} TakeAppend(p: Parser, a: seq<PullEvent>, b: seq<PullEvent>)
    ensures p.TakeAll(a + b) == p.TakeAll(a).TakeAll(b)
    decreases |b|
  {
    if b == [] {
      assert a + b == a;
    } else {
      var front, last := b[..|b| - 1], b[|b| - 1];
      TakeAppend(p, a, front);
      TakeSnoc(p, a + b, 0);
      TakeSnoc(p.TakeAll(a), b, 0);
      assert (a + b)[..|a + b| - 1] == a + front;
    }
  }

  lemma {:induction false} EventsAppend(a: seq<string>, b: seq<string>)
    ensures Events(a + b) == Events(a) + Events(b)
  {
  }

  lemma {:induction false} FeedAppend(p: Parser, a: seq<string>, b: seq<string>)
    ensures p.FeedAll(a + b) == p.FeedAll(a).FeedAll(b)
  {
    EventsAppend(a, b);
    TakeAppend(p, Events(a), Events(b));
  }

  lemma {:induction false} BatchesAreLines(batches: seq<Batch>)
    ensures FeedBatches(FRESH, batches) == FRESH.FeedAll(AllLines(batches))
    decreases |batches|
  {
    if batches == [] {
      assert Events([]) == [];
    } else {
      BatchesAreLines(batches[..|batches| - 1]);
      FeedAppend(FRESH, AllLines(batches[..|batches| - 1]), batches[|batches| - 1].lines);
    }
  }

  // ---------------------------------------------------------------------------------------------------
  // The exit
  // ---------------------------------------------------------------------------------------------------

  /** What the lines of the record and the trailing bytes amount to. */
  function Ending(s: System, tag: string, out: string, err: string): seq<PullEvent>
    requires tag in s.fed
  {
    Events(AllLines(s.fed[tag]) + Segments(out + err))
  }

  predicate Between(s: string, before: string, t: string, after: string) {
    && s == before + t + after
    && (forall c <- before :: c == ' ' || c == '\t') && (forall c <- after :: c == ' ' || c == '\t')
    && (t != "" ==> t[0] !in " \t" && t[|t| - 1] !in " \t")
  }

  /** The blanks taken off both ends, and nothing else. */
  ghost predicate WithoutBlanks(s: string, t: string) {
    exists before, after :: Between(s, before, t, after)
  }

  /** The first 120 characters. */
  predicate CutTo120(m: string, shown: string) {
    shown <= m && |shown| == if |m| < 120 then |m| else 120
  }

  const EXITED := "ollama pull exited "

  ghost predicate LastErrorShown(es: seq<PullEvent>, shown: string) {
    exists m :: IsLastError(es, m) && m != "" && CutTo120(m, shown)
  }

  predicate ExitShown(exitCode: int, shown: string) {
    CutTo120(EXITED + Decimal(exitCode), shown)
  }

  /** The last line of the error output without its blanks, when that leaves something. */
  ghost predicate LastLineShown(line: string, exitCode: int, shown: string) {
    exists t :: WithoutBlanks(line, t) && if t == "" then shown == EXITED + Decimal(exitCode) else CutTo120(t, shown)
  }

  /** What a failed pull shows: the last error line, else the last line of the error output, else the exit code. */
  ghost predicate IsFailureShown(es: seq<PullEvent>, exitCode: int, err: string, shown: string) {
    if !NoError(es) then LastErrorShown(es, shown)
    else if Segments(err) == [] then ExitShown(exitCode, shown)
    else LastLineShown(Segments(err)[|Segments(err)| - 1], exitCode, shown)
  }

  lemma {:induction false} TrimIsWithoutBlanks(s: string)
    ensures WithoutBlanks(s, Trim(s, IsSpace))
  {
    var before, after := TrimParts(s, IsSpace);
    assert Between(s, before, Trim(s, IsSpace), after);
  }

  /** No line that is an error is empty. */
  lemma {:induction false} ErrorsAreNotEmpty(lines: seq<string>, m: string)
    requires IsLastError(Events(lines), m)
    ensures m != ""
  {
  }

  lemma {:induction false} DecimalFits(n: int)
    requires -0x8000_0000 <= n < 0x8000_0000
    ensures |Decimal(n)| <= 11
  {
    assert PowerOfTen(10) == 10_000_000_000;
    NumeralFits(if n < 0 then -n else n, 10);
  }

  lemma {:induction false} MessageExactly(lines: seq<string>, exitCode: int, err: string)
    ensures IsFailureShown(Events(lines), exitCode, err, FailureMessage(FRESH.FeedAll(lines), exitCode, err))
  {
    ErrorExactly(Events(lines));
    if !NoError(Events(lines)) {
      ErrorShown(lines, exitCode, err);
    } else {
      NoErrorShown(FRESH.FeedAll(lines), exitCode, err);
    }
  }

  lemma {:induction false} ErrorShown(lines: seq<string>, exitCode: int, err: string)
    requires !NoError(Events(lines))
    ensures LastErrorShown(Events(lines), FailureMessage(FRESH.FeedAll(lines), exitCode, err))
  {
    ErrorExactly(Events(lines));
    var m := FRESH.FeedAll(lines).errorMessage.value;
    ErrorsAreNotEmpty(lines, m);
    assert FailureMessage(FRESH.FeedAll(lines), exitCode, err) == Prefix(m, 120);
  }

  lemma {:induction false} NoErrorShown(parser: Parser, exitCode: int, err: string)
    requires parser.errorMessage == None
    ensures var shown, segments := FailureMessage(parser, exitCode, err), Segments(err);
      if segments == [] then ExitShown(exitCode, shown)
      else LastLineShown(segments[|segments| - 1], exitCode, shown)
  {
    var segments := Segments(err);
    if segments != [] {
      LineShown(segments[|segments| - 1], exitCode, FailureMessage(parser, exitCode, err));
    }
  }

  lemma {:induction false} LineShown(line: string, exitCode: int, shown: string)
    requires var t := Trim(line, IsSpace); shown == if t == "" then EXITED + Decimal(exitCode) else Prefix(t, 120)
    ensures LastLineShown(line, exitCode, shown)
  {
    TrimIsWithoutBlanks(line);
  }

  /** Whatever it is, it is not empty and fits in 120 characters. */
  lemma {:induction false} MessageFits(es: seq<PullEvent>, exitCode: int, err: string, shown: string)
    requires IsFailureShown(es, exitCode, err, shown) && -0x8000_0000 <= exitCode < 0x8000_0000
    ensures 0 < |shown| <= 120
  {
    DecimalFits(exitCode);
  }

  /**
   The exit of a process whose tag has a record. A code other than 0 shows a failure. Code 0 shows the first digest that
   the lines carried, if any; without one what was shown stays until the listing. The record is gone.
   */
  lemma {:induction false} ExitExactly(s: System, pid: nat, exitCode: int, out: string, err: string)
    requires Inv(s) && Enabled(s, Exit(pid, exitCode, out, err)) && s.procs[pid] in s.c.active
    ensures
      var tag := s.procs[pid];
      var es, t := Ending(s, tag, out, err), Next(s, Exit(pid, exitCode, out, err));
      && tag !in t.c.active && pid in t.ended
      && (exitCode != 0 ==>
            t.c.StateOf(tag).Failed? && IsFailureShown(es, exitCode, err, t.c.StateOf(tag).message)
            && t.waiting == s.waiting)
      && (exitCode == 0 && !NoDigest(es) ==>
            t.c.StateOf(tag).Pulled? && t.c.StateOf(tag).digest.Some?
            && IsFirstDigest(es, t.c.StateOf(tag).digest.value) && t.waiting == s.waiting)
      && (exitCode == 0 && NoDigest(es) ==>
            t.c.StateOf(tag) == s.c.StateOf(tag) && t.waiting == s.waiting + {pid})
      && forall other :: other != tag ==> t.c.StateOf(other) == s.c.StateOf(other)
  {
    var tag := s.procs[pid];
    var lines := AllLines(s.fed[tag]) + Segments(out + err);
    DrainedLines(s, tag, out + err);
    FinalizedDrops(s.c, tag, exitCode, out, err);
    DigestExactly(Events(lines));
    if exitCode != 0 {
      MessageExactly(lines, exitCode, err);
    }
  }

  /** The parser at the end holds the lines delivered to the record and the trailing ones. */
  lemma {:induction false} DrainedLines(s: System, tag: string, trailing: string)
    requires Inv(s) && tag in s.c.active
    ensures OllamaPull.Drained(s.c, tag, trailing) == FRESH.FeedAll(AllLines(s.fed[tag]) + Segments(trailing))
  {
    BatchesAreLines(s.fed[tag]);
    FeedAppend(FRESH, AllLines(s.fed[tag]), Segments(trailing));
  }

  /** After an exit the tag shows a failure exactly if the code was not 0, or a failure was shown and stays for now. */
  lemma {:induction false} FailedExactly(s: System, pid: nat, exitCode: int, out: string, err: string)
    requires Inv(s) && Enabled(s, Exit(pid, exitCode, out, err)) && s.procs[pid] in s.c.active
    ensures
      var tag := s.procs[pid];
      Next(s, Exit(pid, exitCode, out, err)).c.StateOf(tag).Failed?
      <==> exitCode != 0 || (NoDigest(Ending(s, tag, out, err)) && s.c.StateOf(tag).Failed?)
  {
    ExitExactly(s, pid, exitCode, out, err);
  }

  // ---------------------------------------------------------------------------------------------------
  // The outcome stays
  // ---------------------------------------------------------------------------------------------------

  lemma {:induction false} StateStays(s: System, e: Event, tag: string)
    requires tag !in s.c.active && !Waits(s, tag) && Enabled(s, e) && LeavesAlone(e, tag)
    ensures var t := Next(s, e); t.c.StateOf(tag) == s.c.StateOf(tag) && tag !in t.c.active
  {
    match e
    case Deliver(index) => IngestedKeeps(s.c, s.procs[s.pending[index].pid], s.pending[index].lines);
    case Exit(pid, exitCode, out, err) => FinalizedDrops(s.c, s.procs[pid], exitCode, out, err);
    case List(pid, digest) => assert pid in s.waiting && pid in s.procs;
    case Start(started, launch) => StartsElsewhere(s, started, launch, tag);
    case Refresh(installed) => RefreshTouchesStates(s.c, installed, 0);
    case _ =>
  }

  /** With no record and no listing awaited, what a tag shows stays, until it is started again or listed. */
  lemma {:induction false} OutcomeStays(s: System, run: seq<Event>, tag: string)
    requires Inv(s) && tag !in s.c.active && !Waits(s, tag) && IsRun(s, run) && forall e <- run :: LeavesAlone(e, tag)
    ensures RunTo(s, run).c.StateOf(tag) == s.c.StateOf(tag)
    decreases |run|
  {
    if run != [] {
      var e, t := run[0], Next(s, run[0]);
      StepKeepsInv(s, e);
      StateStays(s, e, tag);
      if Waits(t, tag) {
        NoNewWait(s, e, tag);
      }
      OutcomeStays(t, run[1..], tag);
    }
  }

  /** Before it is first started or listed a tag shows as not pulled. */
  lemma {:induction false} NotPulledAtFirst(run: seq<Event>, tag: string)
    requires IsRun(START, run) && forall e <- run :: LeavesAlone(e, tag)
    ensures RunTo(START, run).c.StateOf(tag) == NotPulled
  {
    StartHolds();
    OutcomeStays(START, run, tag);
  }

  /** The listing shows the tag as pulled, with the digest it found, and that stays too. */
  lemma {:induction false} ListingExactly(s: System, pid: nat, digest: Option<string>, run: seq<Event>)
    requires Inv(s) && Enabled(s, List(pid, digest)) && s.procs[pid] !in s.c.active
    requires forall p <- s.waiting :: p in s.procs && s.procs[p] == s.procs[pid] ==> p == pid
    requires IsRun(Next(s, List(pid, digest)), run) && forall e <- run :: LeavesAlone(e, s.procs[pid])
    ensures RunTo(Next(s, List(pid, digest)), run).c.StateOf(s.procs[pid]) == Pulled(digest)
  {
    StepKeepsInv(s, List(pid, digest));
    OutcomeStays(Next(s, List(pid, digest)), run, s.procs[pid]);
  }

  /**
   A pull from its start to its end. Started when every earlier process of the tag was done with, and left alone by
   the user, it comes to its exit with the lines of its own process only; a code other than 0 then shows a failure and
   code 0 the first digest those lines carried, through every run that follows; without a digest the exit waits for its
   listing, the only one the tag waits for.
   */
  lemma {:induction false} PullEndsExactly(s: System, tag: string, pid: nat, run: seq<Event>, exitCode: int,
                                           out: string, err: string, after: seq<Event>)
    requires Inv(s) && s.c.Admits(tag) && pid !in s.procs && Quiet(s, tag)
    requires var t := Next(s, Start(tag, Runs(pid)));
      && IsRun(t, run) && (forall e <- run :: Untouched(e, tag)) && pid !in RunTo(t, run).ended
      && pid in RunTo(t, run).procs
    requires var u := RunTo(Next(s, Start(tag, Runs(pid))), run);
      IsRun(Next(u, Exit(pid, exitCode, out, err)), after) && forall e <- after :: LeavesAlone(e, tag)
    ensures
      var u := RunTo(Next(s, Start(tag, Runs(pid))), run);
      var v := Next(u, Exit(pid, exitCode, out, err));
      && tag in u.fed && (forall b <- u.fed[tag] :: b.pid == pid)
      && var es, shown := Ending(u, tag, out, err), RunTo(v, after).c.StateOf(tag);
      && (exitCode != 0 ==> shown.Failed? && IsFailureShown(es, exitCode, err, shown.message))
      && (exitCode == 0 && !NoDigest(es) ==>
            shown.Pulled? && shown.digest.Some? && IsFirstDigest(es, shown.digest.value))
      && (exitCode == 0 && NoDigest(es) ==>
            pid in v.waiting && forall p <- v.waiting :: p in v.procs && v.procs[p] == tag ==> p == pid)
  {
    var t := Next(s, Start(tag, Runs(pid)));
    RestartIsSafeExactly(s, tag, pid);
    StartIsAlone(s, tag, pid);
    RecordsAlwaysHold(t, run);
    AloneAlways(t, run, tag, pid);
    var u := RunTo(t, run);
    assert OwnRecord(u, tag, pid) && Alone(u, tag, pid);
    EndsExactly(u, tag, pid, exitCode, out, err, after);
  }

  lemma {:induction false} StartIsAlone(s: System, tag: string, pid: nat)
    requires Inv(s) && s.c.Admits(tag) && pid !in s.procs && Quiet(s, tag)
    ensures var t := Next(s, Start(tag, Runs(pid))); Inv(t) && Alone(t, tag, pid)
  {
    StepKeepsInv(s, Start(tag, Runs(pid)));
  }

  lemma {:induction false} AloneAlways(s: System, run: seq<Event>, tag: string, pid: nat)
    requires Inv(s) && Alone(s, tag, pid) && IsRun(s, run) && forall e <- run :: Untouched(e, tag)
    ensures Alone(RunTo(s, run), tag, pid)
    decreases |run|
  {
    if run != [] {
      StepKeepsInv(s, run[0]);
      AloneStep(s, run[0], tag, pid);
      AloneAlways(Next(s, run[0]), run[1..], tag, pid);
    }
  }

  lemma {:induction false} EndsExactly(u: System, tag: string, pid: nat, exitCode: int, out: string, err: string,
                                       after: seq<Event>)
    requires Inv(u) && OwnRecord(u, tag, pid) && Alone(u, tag, pid) && pid !in u.ended
    requires var v := Next(u, Exit(pid, exitCode, out, err));
      IsRun(v, after) && forall e <- after :: LeavesAlone(e, tag)
    ensures
      var v := Next(u, Exit(pid, exitCode, out, err));
      var es, shown := Ending(u, tag, out, err), RunTo(v, after).c.StateOf(tag);
      && (exitCode != 0 ==> shown.Failed? && IsFailureShown(es, exitCode, err, shown.message))
      && (exitCode == 0 && !NoDigest(es) ==>
            shown.Pulled? && shown.digest.Some? && IsFirstDigest(es, shown.digest.value))
      && (exitCode == 0 && NoDigest(es) ==>
            pid in v.waiting && forall p <- v.waiting :: p in v.procs && v.procs[p] == tag ==> p == pid)
  {
    var e := Exit(pid, exitCode, out, err);
    ExitExactly(u, pid, exitCode, out, err);
    StepKeepsInv(u, e);
    assert !Waits(u, tag);
    if exitCode != 0 || !NoDigest(Ending(u, tag, out, err)) {
      assert !Waits(Next(u, e), tag);
      OutcomeStays(Next(u, e), after, tag);
    }
  }
}
