/** The controller behind the model drawer. */
module OllamaPull {
  // One record per model tag, asynchronous output and exit of the pull processes, cancellation and restart.

  import opened Options
  import opened Text
  import opened LineBuffer
  import opened OllamaPullOutput

  const CURATED := ["llama3.1:8b", "qwen2.5-coder:7b", "deepseek-r1:7b", "mistral:7b", "gemma2:2b"]

  /** What starting the process comes to: no binary on the path, a failing launch, or a running process. */
  datatype Launch = NoBinary | RunFails(error: string) | Runs(pid: nat)

  /** The three dictionaries of the controller; a process is named by its identity. */
  datatype Controller = Controller(states: map<string, PullState>, active: map<string, nat>,
                                   parsers: map<string, Parser>)
  {
    function StateOf(tag: string): PullState {
      if tag in states then states[tag] else NotPulled
    }

    function ParserOf(tag: string): Parser {
      if tag in parsers then parsers[tag] else FRESH
    }

    /** The request goes as far as creating a process. */
    predicate Admits(tag: string) {
      IsValidModelTag(tag) && !StateOf(tag).Pulling?
    }
  }

  function Started(c: Controller, tag: string, launch: Launch): Controller {
    if !IsValidModelTag(tag) then c.(states := c.states[tag := Failed("Invalid model tag")])
    else if c.StateOf(tag).Pulling? then c
    else match launch
      case NoBinary => c.(states := c.states[tag := Failed("ollama binary not found on PATH")])
      case RunFails(error) =>
        Controller(c.states[tag := Failed("Failed to start: " + error)], c.active - {tag}, c.parsers[tag := FRESH])
      case Runs(pid) =>
        Controller(c.states[tag := Pulling(0.0)], c.active[tag := pid], c.parsers[tag := FRESH])
  }

  function Ingested(c: Controller, tag: string, lines: seq<string>): Controller {
    if tag !in c.active then c
    else
      var parser := c.ParserOf(tag).FeedAll(lines);
      c.(parsers := c.parsers[tag := parser], states := c.states[tag := parser.State()])
  }

  function FailureMessage(parser: Parser, exitCode: int, trailingStderr: string): string {
    var segments := Segments(trailingStderr);
    var exited := "ollama pull exited " + Decimal(exitCode);
    var message :=
      if parser.errorMessage.Some? then parser.errorMessage.value
      else if segments != [] then Trim(segments[|segments| - 1], IsSpace)
      else exited;
    if message == "" then exited else Prefix(message, 120)
  }

  /** The parser once the trailing bytes are in. */
  function Drained(c: Controller, tag: string, trailing: string): Parser {
    c.ParserOf(tag).FeedAll(Segments(trailing))
  }

  /** A successful exit whose digest is unknown waits for a listing of the installed models. */
  predicate NeedsListing(c: Controller, tag: string, exitCode: int, trailing: string) {
    tag in c.active && exitCode == 0 && Drained(c, tag, trailing).layerDigest == None
  }

  function Finalized(c: Controller, tag: string, exitCode: int, out: string, err: string): Controller {
    if tag !in c.active then c
    else
      var parser := Drained(c, tag, out + err);
      var rest := c.(active := c.active - {tag}, parsers := c.parsers - {tag});
      if exitCode != 0 then rest.(states := rest.states[tag := Failed(FailureMessage(parser, exitCode, err))])
      else if parser.layerDigest == None then rest
      else rest.(states := rest.states[tag := Pulled(parser.layerDigest)])
  }

  function Listed(c: Controller, tag: string, digest: Option<string>): Controller {
    c.(states := c.states[tag := Pulled(digest)])
  }

  function Cancelled(c: Controller, tag: string): Controller {
    if tag !in c.active then c
    else Controller(c.states[tag := NotPulled], c.active - {tag}, c.parsers - {tag})
  }

  function Refreshed(c: Controller, installed: map<string, string>, from: nat := 0): Controller
    decreases |CURATED| - from
  {
    if |CURATED| <= from then c
    else
      var tag := CURATED[from];
      var d := if tag in installed && !c.StateOf(tag).Pulling?
               then c.(states := c.states[tag := Pulled(Some(installed[tag]))]) else c;
      Refreshed(d, installed, from + 1)
  }

  class OllamaModelDownloadController {
    var states: map<string, PullState>
    var activePulls: map<string, nat>
    var parsers: map<string, Parser>

    constructor ()
      ensures View() == Controller(map[], map[], map[])
    {
      states, activePulls, parsers := map[], map[], map[];
    }

    function View(): Controller
      reads this
    {
      Controller(states, activePulls, parsers)
    }

    method StartPull(tag: string, launch: Launch)
      modifies this
      ensures View() == Started(old(View()), tag, launch)
    {
      if !IsValidModelTag(tag) {
        states := states[tag := Failed("Invalid model tag")];
        return;
      }
      if tag in states && states[tag].Pulling? {
        return;
      }
      if launch.NoBinary? {
        states := states[tag := Failed("ollama binary not found on PATH")];
        return;
      }
      ghost var before := View();
      states := states[tag := Pulling(0.0)];
      parsers := parsers[tag := FRESH];
      match launch
      case Runs(pid) =>
        activePulls := activePulls[tag := pid];
      case RunFails(error) =>
        activePulls := activePulls - {tag};
        states := states[tag := Failed("Failed to start: " + error)];
        assert states == before.states[tag := Failed("Failed to start: " + error)];
    }

    method Feed(parser: Parser, lines: seq<string>) returns (fed: Parser)
      ensures fed == parser.FeedAll(lines)
    {
      fed := parser;
      for i := 0 to |lines|
        invariant fed.TakeAll(Events(lines), i) == parser.FeedAll(lines)
      {
        fed := fed.Take(Classify(lines[i]));
      }
    }

    method IngestLines(tag: string, lines: seq<string>)
      modifies this
      ensures View() == Ingested(old(View()), tag, lines)
    {
      if tag !in activePulls {
        return;
      }
      var parser := Feed(if tag in parsers then parsers[tag] else FRESH, lines);
      parsers := parsers[tag := parser];
      states := states[tag := parser.State()];
    }

    /** Runs up to the end or to the wait for a listing. */
    method FinalizePull(tag: string, exitCode: int, trailingStdout: string, trailingStderr: string)
      returns (waits: bool)
      modifies this
      ensures View() == Finalized(old(View()), tag, exitCode, trailingStdout, trailingStderr)
      ensures waits == NeedsListing(old(View()), tag, exitCode, trailingStdout + trailingStderr)
    {
      if tag !in activePulls {
        return false;
      }
      activePulls := activePulls - {tag};
      var parser := Feed(if tag in parsers then parsers[tag] else FRESH, Segments(trailingStdout + trailingStderr));
      parsers := parsers - {tag};
      waits := false;
      if exitCode != 0 {
        states := states[tag := Failed(FailureMessage(parser, exitCode, trailingStderr))];
      } else if parser.layerDigest == None {
        waits := true;
      } else {
        states := states[tag := Pulled(parser.layerDigest)];
      }
    }

    method FinishListing(tag: string, digest: Option<string>)
      modifies this
      ensures View() == Listed(old(View()), tag, digest)
    {
      states := states[tag := Pulled(digest)];
    }

    method CancelPull(tag: string)
      modifies this
      ensures View() == Cancelled(old(View()), tag)
    {
      if tag !in activePulls {
        return;
      }
      activePulls := activePulls - {tag};
      parsers := parsers - {tag};
      states := states[tag := NotPulled];
    }

    method RefreshInstalled(installed: map<string, string>)
      modifies this
      ensures View() == Refreshed(old(View()), installed)
    {
      for i := 0 to |CURATED|
        invariant Refreshed(View(), installed, i) == Refreshed(old(View()), installed)
      {
        var tag := CURATED[i];
        if tag in installed {
          if tag in states && states[tag].Pulling? {
            continue;
          }
          states := states[tag := Pulled(Some(installed[tag]))];
        }
      }
    }
  }

  // ---------------------------------------------------------------------------------------------------
  // The controller among its processes
  // ---------------------------------------------------------------------------------------------------

  /** Lines on their way from a process to the main actor. */
  datatype Batch = Batch(pid: nat, lines: seq<string>)

  /**
   `procs`: every process started, with its tag.  `ended`: those whose exit has been handled.  `waiting`: those
   whose exit waits for a listing.  `fed`: what the present record of a tag has been fed, in order.
   */
  datatype System = System(c: Controller, procs: map<nat, string>, ended: set<nat>, waiting: set<nat>,
                           pending: seq<Batch>, fed: map<string, seq<Batch>>)

  const START := System(Controller(map[], map[], map[]), map[], {}, {}, [], map[])

  datatype Event =
    | Start(tag: string, launch: Launch)
    | Output(pid: nat, lines: seq<string>)
    | Deliver(index: nat)
    | Exit(pid: nat, exitCode: int, out: string, err: string)
    | List(pid: nat, digest: Option<string>)
    | Cancel(tag: string)
    | Refresh(installed: map<string, string>)

  predicate Enabled(s: System, e: Event) {
    match e
    case Start(_, launch) => launch.Runs? ==> launch.pid !in s.procs
    case Output(pid, lines) => pid in s.procs && pid !in s.ended && lines != []
    case Deliver(index) => index < |s.pending| && s.pending[index].pid in s.procs
    case Exit(pid, _, _, _) => pid in s.procs && pid !in s.ended
    case List(pid, _) => pid in s.procs && pid in s.waiting
    case Cancel(_) => true
    case Refresh(_) => true
  }

  function Next(s: System, e: Event): System
    requires Enabled(s, e)
  {
    match e
    case Start(tag, launch) =>
      var t := s.(c := Started(s.c, tag, launch));
      if s.c.Admits(tag) && launch.Runs? then t.(procs := s.procs[launch.pid := tag], fed := s.fed[tag := []]) else t
    case Output(pid, lines) => s.(pending := s.pending + [Batch(pid, lines)])
    case Deliver(index) =>
      var batch := s.pending[index];
      var tag := s.procs[batch.pid];
      var t := s.(c := Ingested(s.c, tag, batch.lines), pending := s.pending[..index] + s.pending[index + 1..]);
      if tag in s.c.active && tag in s.fed then t.(fed := s.fed[tag := s.fed[tag] + [batch]]) else t
    case Exit(pid, exitCode, out, err) =>
      var tag := s.procs[pid];
      s.(c := Finalized(s.c, tag, exitCode, out, err), ended := s.ended + {pid},
         waiting := if NeedsListing(s.c, tag, exitCode, out + err) then s.waiting + {pid} else s.waiting)
    case List(pid, digest) => s.(c := Listed(s.c, s.procs[pid], digest), waiting := s.waiting - {pid})
    case Cancel(tag) => s.(c := Cancelled(s.c, tag))
    case Refresh(installed) => s.(c := Refreshed(s.c, installed))
  }

  ghost predicate IsRun(s: System, run: seq<Event>)
    decreases |run|
  {
    run == [] || (Enabled(s, run[0]) && IsRun(Next(s, run[0]), run[1..]))
  }

  ghost function RunTo(s: System, run: seq<Event>): System
    requires IsRun(s, run)
    decreases |run|
  {
    if run == [] then s else RunTo(Next(s, run[0]), run[1..])
  }

  // ---------------------------------------------------------------------------------------------------
  // What every run keeps
  // ---------------------------------------------------------------------------------------------------

  function FeedBatches(p: Parser, batches: seq<Batch>): Parser
    decreases |batches|
  {
    if batches == [] then p
    else FeedBatches(p, batches[..|batches| - 1]).FeedAll(batches[|batches| - 1].lines)
  }

  ghost predicate RecordsHold(s: System) {
    forall tag <- s.c.active ::
      && s.c.active[tag] in s.procs && s.procs[s.c.active[tag]] == tag && s.c.active[tag] !in s.ended
      && tag in s.c.parsers && tag in s.fed && s.c.parsers[tag] == FeedBatches(FRESH, s.fed[tag])
  }

  ghost predicate Inv(s: System) {
    && RecordsHold(s)
    && (forall b <- s.pending :: b.pid in s.procs && b.lines != [])
    && (forall pid <- s.waiting :: pid in s.procs && pid in s.ended)
    && (forall pid <- s.ended :: pid in s.procs)
  }

  lemma {:induction false} RefreshTouchesStates(c: Controller, installed: map<string, string>, from: nat)
    ensures var d := Refreshed(c, installed, from); d.active == c.active && d.parsers == c.parsers
    ensures var d := Refreshed(c, installed, from); forall tag :: tag !in installed ==> d.StateOf(tag) == c.StateOf(tag)
    decreases |CURATED| - from
  {
    if from < |CURATED| {
      var tag := CURATED[from];
      var d := if tag in installed && !c.StateOf(tag).Pulling?
               then c.(states := c.states[tag := Pulled(Some(installed[tag]))]) else c;
      RefreshTouchesStates(d, installed, from + 1);
    }
  }

  lemma {:induction false} OneMoreBatch(p: Parser, batches: seq<Batch>, batch: Batch)
    ensures FeedBatches(p, batches + [batch]) == FeedBatches(p, batches).FeedAll(batch.lines)
  {
    assert (batches + [batch])[..|batches|] == batches;
  }

  lemma {:induction false} StartKeepsInv(s: System, tag: string, launch: Launch)
    requires Inv(s) && Enabled(s, Start(tag, launch))
    ensures Inv(Next(s, Start(tag, launch)))
  {
  }

  lemma {:induction false} DeliverKeepsInv(s: System, index: nat)
    requires Inv(s) && Enabled(s, Deliver(index))
    ensures Inv(Next(s, Deliver(index)))
  {
    var batch := s.pending[index];
    var tag := s.procs[batch.pid];
    if tag in s.c.active {
      OneMoreBatch(FRESH, s.fed[tag], batch);
    }
  }

  lemma {:induction false} ExitKeepsInv(s: System, pid: nat, exitCode: int, out: string, err: string)
    requires Inv(s) && Enabled(s, Exit(pid, exitCode, out, err))
    ensures Inv(Next(s, Exit(pid, exitCode, out, err)))
  {
    var tag := s.procs[pid];
    FinalizedDrops(s.c, tag, exitCode, out, err);
  }

  lemma {:induction false} FinalizedDrops(c: Controller, tag: string, exitCode: int, out: string, err: string)
    ensures var d := Finalized(c, tag, exitCode, out, err);
      d.active == c.active - {tag} && (tag in c.active ==> d.parsers == c.parsers - {tag})
        && (tag !in c.active ==> d == c)
    ensures var d := Finalized(c, tag, exitCode, out, err);
      forall other :: other != tag ==> d.StateOf(other) == c.StateOf(other)
  {
    if tag !in c.active {
      assert c.active - {tag} == c.active;
    }
  }

  lemma {:induction false} StepKeepsInv(s: System, e: Event)
    requires Inv(s) && Enabled(s, e)
    ensures Inv(Next(s, e))
  {
    match e
    case Start(tag, launch) => StartKeepsInv(s, tag, launch);
    case Output(_, _) =>
    case Deliver(index) => DeliverKeepsInv(s, index);
    case Exit(pid, exitCode, out, err) => ExitKeepsInv(s, pid, exitCode, out, err);
    case List(_, _) =>
    case Cancel(_) =>
    case Refresh(installed) => RefreshTouchesStates(s.c, installed, 0);
  }

  /**
   In every reachable state each recorded pull is a process not yet ended, started for that tag, and has a parser
   holding exactly what was delivered to the record since it was made.
   */
  lemma {:induction false} RecordsAlwaysHold(s: System, run: seq<Event>)
    requires Inv(s) && IsRun(s, run)
    ensures Inv(RunTo(s, run))
    decreases |run|
  {
    if run != [] {
      StepKeepsInv(s, run[0]);
      RecordsAlwaysHold(Next(s, run[0]), run[1..]);
    }
  }

  lemma {:induction false} StartHolds()
    ensures Inv(START)
  {
  }

  // ---------------------------------------------------------------------------------------------------
  // Cancellation
  // ---------------------------------------------------------------------------------------------------

  /** The user neither starts the tag nor sees it in a listing refresh. */
  predicate LeavesAlone(e: Event, tag: string) {
    (e.Start? ==> e.tag != tag) && (e.Refresh? ==> tag !in e.installed)
  }

  ghost predicate Waits(s: System, tag: string) {
    exists pid :: pid in s.waiting && pid in s.procs && s.procs[pid] == tag
  }

  ghost predicate IsCancelled(s: System, tag: string) {
    Inv(s) && s.c.StateOf(tag) == NotPulled && tag !in s.c.active && !Waits(s, tag)
  }

  /** Without a record for the tag no step makes an exit of it wait. */
  lemma {:induction false} NoNewWait(s: System, e: Event, tag: string)
    requires Inv(s) && Enabled(s, e) && Waits(Next(s, e), tag)
    ensures Waits(s, tag) || (tag in s.c.active && e.Exit? && s.procs[e.pid] == tag)
  {
    var t := Next(s, e);
    var pid :| pid in t.waiting && pid in t.procs && t.procs[pid] == tag;
    assert pid in s.procs && s.procs[pid] == tag;
  }

  lemma {:induction false} CancelledStep(s: System, e: Event, tag: string)
    requires IsCancelled(s, tag) && Enabled(s, e) && LeavesAlone(e, tag)
    ensures IsCancelled(Next(s, e), tag)
  {
    StepKeepsInv(s, e);
    var t := Next(s, e);
    assert !Waits(t, tag) by {
      if Waits(t, tag) {
        NoNewWait(s, e, tag);
      }
    }
    NotPulledStep(s, e, tag);
  }

  lemma {:induction false} NotPulledStep(s: System, e: Event, tag: string)
    requires s.c.StateOf(tag) == NotPulled && tag !in s.c.active && !Waits(s, tag)
    requires Enabled(s, e) && LeavesAlone(e, tag)
    ensures var t := Next(s, e); t.c.StateOf(tag) == NotPulled && tag !in t.c.active
  {
    match e
    case Deliver(index) => IngestedKeeps(s.c, s.procs[s.pending[index].pid], s.pending[index].lines);
    case Exit(pid, exitCode, out, err) => FinalizedDrops(s.c, s.procs[pid], exitCode, out, err);
    case List(pid, digest) => assert pid in s.waiting && pid in s.procs;
    case _ => NotPulledByCaller(s, e, tag);
  }

  /** What the drawer itself asks for. */
  lemma {:induction false} NotPulledByCaller(s: System, e: Event, tag: string)
    requires s.c.StateOf(tag) == NotPulled && tag !in s.c.active
    requires Enabled(s, e) && LeavesAlone(e, tag) && (e.Start? || e.Output? || e.Cancel? || e.Refresh?)
    ensures var t := Next(s, e); t.c.StateOf(tag) == NotPulled && tag !in t.c.active
  {
    if e.Refresh? {
      RefreshTouchesStates(s.c, e.installed, 0);
    } else if e.Start? {
      StartsElsewhere(s, e.tag, e.launch, tag);
    }
  }

  lemma {:induction false} StartsElsewhere(s: System, started: string, launch: Launch, tag: string)
    requires Enabled(s, Start(started, launch)) && started != tag
    ensures var t := Next(s, Start(started, launch));
      t.c.StateOf(tag) == s.c.StateOf(tag) && (tag in t.c.active <==> tag in s.c.active)
  {
  }

  lemma {:induction false} IngestedKeeps(c: Controller, tag: string, lines: seq<string>)
    ensures var d := Ingested(c, tag, lines);
      d.active == c.active
        && (forall other :: other != tag || tag !in c.active ==> d.StateOf(other) == c.StateOf(other))
  {
  }

  lemma {:induction false} CancelledRun(s: System, run: seq<Event>, tag: string)
    requires IsCancelled(s, tag) && IsRun(s, run) && forall e <- run :: LeavesAlone(e, tag)
    ensures RunTo(s, run).c.StateOf(tag) == NotPulled
    decreases |run|
  {
    if run != [] {
      CancelledStep(s, run[0], tag);
      CancelledRun(Next(s, run[0]), run[1..], tag);
    }
  }

  ghost predicate StaysNotPulled(s: System, tag: string) {
    forall run :: IsRun(s, run) && (forall e <- run :: LeavesAlone(e, tag)) ==>
      RunTo(s, run).c.StateOf(tag) == NotPulled
  }

  /**
   A cancelled pull stays not pulled, whatever late output, late exits and other pulls do, until the tag is started
   again or listed by a refresh; exactly if no earlier pull of the tag is still waiting for its listing.
   */
  lemma {:induction false} CancelSticksExactly(s: System, tag: string)
    requires Inv(s) && tag in s.c.active
    ensures StaysNotPulled(Next(s, Cancel(tag)), tag) <==> !Waits(s, tag)
  {
    var t := Next(s, Cancel(tag));
    StepKeepsInv(s, Cancel(tag));
    if pid :| pid in s.waiting && pid in s.procs && s.procs[pid] == tag {
      var run := [List(pid, None)];
      assert Enabled(t, run[0]) && IsRun(Next(t, run[0]), run[1..]);
      assert RunTo(t, run) == RunTo(Next(t, run[0]), run[1..]) == Next(t, run[0]);
      assert forall e <- run :: LeavesAlone(e, tag);
    } else {
      forall run | IsRun(t, run) && forall e <- run :: LeavesAlone(e, tag)
        ensures RunTo(t, run).c.StateOf(tag) == NotPulled
      {
        CancelledRun(t, run, tag);
      }
    }
  }

  // ---------------------------------------------------------------------------------------------------
  // Restart
  // ---------------------------------------------------------------------------------------------------

  /** What a record shows after the given batches. */
  function Shown(fed: seq<Batch>): PullState {
    if fed == [] then Pulling(0.0) else FeedBatches(FRESH, fed).State()
  }

  /** While it runs, `pid` is the pull on record for the tag, and what is shown comes from its output alone. */
  ghost predicate OwnRecord(s: System, tag: string, pid: nat) {
    pid !in s.ended ==>
      && tag in s.c.active && s.c.active[tag] == pid && tag in s.fed
      && (forall b <- s.fed[tag] :: b.pid == pid)
      && s.c.StateOf(tag) == Shown(s.fed[tag])
  }

  ghost predicate Unended(s: System, tag: string) {
    exists pid :: pid in s.procs && s.procs[pid] == tag && pid !in s.ended
  }

  ghost predicate Outstanding(s: System, tag: string) {
    exists k :: 0 <= k < |s.pending| && s.pending[k].pid in s.procs && s.procs[s.pending[k].pid] == tag
  }

  /** Every earlier process of the tag is completely done with. */
  ghost predicate Quiet(s: System, tag: string) {
    !Unended(s, tag) && !Outstanding(s, tag) && !Waits(s, tag)
  }

  /** Nothing but `pid` is left to act on the tag. */
  ghost predicate Alone(s: System, tag: string, pid: nat) {
    && pid in s.procs && s.procs[pid] == tag
    && (forall p <- s.procs :: s.procs[p] == tag && p !in s.ended ==> p == pid)
    && (forall b <- s.pending :: b.pid in s.procs && s.procs[b.pid] == tag ==> b.pid == pid)
    && (pid !in s.ended ==> !Waits(s, tag))
  }

  /** The user leaves the tag to the running pull. */
  predicate Untouched(e: Event, tag: string) {
    LeavesAlone(e, tag) && (e.Cancel? ==> e.tag != tag)
  }

  lemma {:induction false} AloneStep(s: System, e: Event, tag: string, pid: nat)
    requires Inv(s) && Alone(s, tag, pid) && Enabled(s, e) && Untouched(e, tag)
    ensures Alone(Next(s, e), tag, pid)
  {
    var t := Next(s, e);
    if pid !in t.ended && Waits(t, tag) {
      NoNewWait(s, e, tag);
    }
  }

  lemma {:induction false} OwnStep(s: System, e: Event, tag: string, pid: nat)
    requires Inv(s) && Alone(s, tag, pid) && OwnRecord(s, tag, pid) && Enabled(s, e) && Untouched(e, tag)
    ensures OwnRecord(Next(s, e), tag, pid)
  {
    match e
    case Start(_, _) =>
    case Output(_, _) =>
    case Deliver(index) => OwnDeliver(s, index, tag, pid);
    case Exit(p, exitCode, out, err) => FinalizedDrops(s.c, s.procs[p], exitCode, out, err);
    case List(p, _) => WaitsFor(s, p);
    case Cancel(_) =>
    case Refresh(installed) => RefreshTouchesStates(s.c, installed, 0);
  }

  lemma {:induction false} WaitsFor(s: System, p: nat)
    requires p in s.waiting && p in s.procs
    ensures Waits(s, s.procs[p])
  {
  }

  lemma {:induction false} OwnDeliver(s: System, index: nat, tag: string, pid: nat)
    requires Inv(s) && Alone(s, tag, pid) && OwnRecord(s, tag, pid) && Enabled(s, Deliver(index))
    ensures OwnRecord(Next(s, Deliver(index)), tag, pid)
  {
    var batch := s.pending[index];
    if s.procs[batch.pid] == tag && pid !in s.ended {
      OneMoreBatch(FRESH, s.fed[tag], batch);
    }
  }

  lemma {:induction false} OwnRun(s: System, run: seq<Event>, tag: string, pid: nat)
    requires Inv(s) && Alone(s, tag, pid) && OwnRecord(s, tag, pid)
    requires IsRun(s, run) && forall e <- run :: Untouched(e, tag)
    ensures OwnRecord(RunTo(s, run), tag, pid)
    decreases |run|
  {
    if run != [] {
      StepKeepsInv(s, run[0]);
      AloneStep(s, run[0], tag, pid);
      OwnStep(s, run[0], tag, pid);
      OwnRun(Next(s, run[0]), run[1..], tag, pid);
    }
  }

  ghost predicate StaysOwn(s: System, tag: string, pid: nat) {
    forall run :: IsRun(s, run) && (forall e <- run :: Untouched(e, tag)) ==> OwnRecord(RunTo(s, run), tag, pid)
  }

  lemma {:induction false} OneEventBreaks(s: System, e: Event, tag: string, pid: nat)
    requires Enabled(s, e) && Untouched(e, tag) && !OwnRecord(Next(s, e), tag, pid)
    ensures !StaysOwn(s, tag, pid)
  {
    var run := [e];
    assert run[1..] == [] && IsRun(Next(s, e), run[1..]);
    assert IsRun(s, run) && RunTo(s, run) == Next(s, e);
  }

  /**
   Records are kept by tag only. A newly started pull keeps its record, and shows its own output alone, through
   every run in which the user leaves the tag to it, if and only if at its start every earlier process of the tag
   had ended, delivered its output and got its listing.
   */
  lemma {:induction false} RestartIsSafeExactly(s: System, tag: string, pid: nat)
    requires Inv(s) && s.c.Admits(tag) && pid !in s.procs
    ensures StaysOwn(Next(s, Start(tag, Runs(pid))), tag, pid) <==> Quiet(s, tag)
  {
    var t := Next(s, Start(tag, Runs(pid)));
    StepKeepsInv(s, Start(tag, Runs(pid)));
    if p :| p in s.procs && s.procs[p] == tag && p !in s.ended {
      OneEventBreaks(t, Exit(p, 1, "", ""), tag, pid);
    } else if k :| 0 <= k < |s.pending| && s.pending[k].pid in s.procs && s.procs[s.pending[k].pid] == tag {
      var u := Next(t, Deliver(k));
      assert u.fed[tag] == [] + [s.pending[k]] && s.pending[k] in u.fed[tag];
      OneEventBreaks(t, Deliver(k), tag, pid);
    } else if p :| p in s.waiting && p in s.procs && s.procs[p] == tag {
      OneEventBreaks(t, List(p, None), tag, pid);
    } else {
      forall run | IsRun(t, run) && forall e <- run :: Untouched(e, tag) ensures OwnRecord(RunTo(t, run), tag, pid)
      {
        OwnRun(t, run, tag, pid);
      }
    }
  }

  /**
   A second pull of a tag can be started while the first is running, undisturbed and never cancelled: exactly when
   the first has delivered output and shows no progress, or an error, or a success.
   */
  lemma {:induction false} SecondStartExactly(s: System, tag: string, pid: nat)
    requires Inv(s) && IsValidModelTag(tag) && tag in s.c.active && OwnRecord(s, tag, s.c.active[tag])
      && pid !in s.procs
    ensures var t := Next(s, Start(tag, Runs(pid)));
      t.c.active[tag] == pid <==> s.fed[tag] != [] && !s.c.parsers[tag].State().Pulling?
  {
  }

  /** The opening line of every pull is enough. */
  lemma {:induction false} ManifestLineReopensTheButton(tag: string, p: nat, q: nat)
    requires IsValidModelTag(tag) && p != q
    ensures
      var run := [Start(tag, Runs(p)), Output(p, ["pulling manifest"]), Deliver(0), Start(tag, Runs(q))];
      IsRun(START, run) &&
      var s := RunTo(START, run);
      s.c.active == map[tag := q] && s.procs == map[p := tag, q := tag] && s.ended == {}
  {
    var batch := Batch(p, ["pulling manifest"]);
    var s1 := PulledBy(tag, p);
    var s3 := s1.(c := s1.c.(states := map[tag := NotPulled]), fed := map[tag := [batch]]);
    PullStarts(tag, p);
    assert Next(s1, Output(p, batch.lines)) == s1.(pending := [batch]);
    ManifestDelivers(s1, tag, p);
    PullStartsAgain(s3, tag, p, q);
    FourSteps(START, Start(tag, Runs(p)), Output(p, batch.lines), Deliver(0), Start(tag, Runs(q)));
  }

  /** One process pulling the tag, with nothing delivered yet. */
  function PulledBy(tag: string, p: nat): System {
    System(Controller(map[tag := Pulling(0.0)], map[tag := p], map[tag := FRESH]),
           map[p := tag], {}, {}, [], map[tag := []])
  }

  lemma {:induction false} PullStarts(tag: string, p: nat)
    requires IsValidModelTag(tag)
    ensures Enabled(START, Start(tag, Runs(p))) && Next(START, Start(tag, Runs(p))) == PulledBy(tag, p)
  {
  }

  lemma {:induction false} PullStartsAgain(s: System, tag: string, p: nat, q: nat)
    requires IsValidModelTag(tag) && p != q && s.procs == map[p := tag] && s.c.active == map[tag := p]
    requires s.c.StateOf(tag) == NotPulled && s.ended == {}
    ensures Enabled(s, Start(tag, Runs(q)))
    ensures var t := Next(s, Start(tag, Runs(q)));
      t.c.active == map[tag := q] && t.procs == map[p := tag, q := tag] && t.ended == {}
  {
  }

  /** Delivering the line takes the display back to not pulled, and the record stays. */
  lemma {:induction false} ManifestDelivers(s: System, tag: string, p: nat)
    requires s == PulledBy(tag, p)
    ensures
      var batch := Batch(p, ["pulling manifest"]);
      var waiting := s.(pending := [batch]);
      Enabled(waiting, Deliver(0)) &&
      Next(waiting, Deliver(0)) == s.(c := s.c.(states := map[tag := NotPulled]), fed := map[tag := [batch]])
  {
    var batch := Batch(p, ["pulling manifest"]);
    var waiting := s.(pending := [batch]);
    ManifestDelivered(tag, p);
    assert waiting.pending[..0] + waiting.pending[1..] == [];
    assert s.fed[tag] + [batch] == [batch];
    assert s.fed[tag := [batch]] == map[tag := [batch]];
  }

  lemma {:induction false} ManifestDelivered(tag: string, p: nat)
    ensures Ingested(Controller(map[tag := Pulling(0.0)], map[tag := p], map[tag := FRESH]), tag, ["pulling manifest"])
         == Controller(map[tag := NotPulled], map[tag := p], map[tag := FRESH])
  {
    ManifestLine();
  }

  lemma {:induction false} FourSteps(s: System, e1: Event, e2: Event, e3: Event, e4: Event)
    requires Enabled(s, e1) && Enabled(Next(s, e1), e2) && Enabled(Next(Next(s, e1), e2), e3)
    requires Enabled(Next(Next(Next(s, e1), e2), e3), e4)
    ensures IsRun(s, [e1, e2, e3, e4])
    ensures RunTo(s, [e1, e2, e3, e4]) == Next(Next(Next(Next(s, e1), e2), e3), e4)
  {
    var s1 := Next(s, e1);
    var s2 := Next(s1, e2);
    var s3 := Next(s2, e3);
    var s4 := Next(s3, e4);
    assert [e4][1..] == [] && [e3, e4][1..] == [e4] && [e2, e3, e4][1..] == [e3, e4]
      && [e1, e2, e3, e4][1..] == [e2, e3, e4];
    assert IsRun(s4, []) && RunTo(s4, []) == s4;
    assert IsRun(s3, [e4]) && RunTo(s3, [e4]) == s4;
    assert IsRun(s2, [e3, e4]) && RunTo(s2, [e3, e4]) == s4;
    assert IsRun(s1, [e2, e3, e4]) && RunTo(s1, [e2, e3, e4]) == s4;
  }

  lemma {:induction false} ManifestLine()
    ensures FRESH.FeedAll(["pulling manifest"]) == FRESH && FRESH.State() == NotPulled
  {
    var line := "pulling manifest";
    assert SkipWhile(line, IsSpaceOrNewline, 0) == 0;
    assert line[0..] == line;
    assert SkipBackWhile(line, IsSpaceOrNewline, |line|) == |line|;
    assert Trim(line, IsSpaceOrNewline) == line;
    assert Lower(line)[0] == 'p';
    assert Events([line])[0] == ManifestStart;
    assert FRESH.Take(ManifestStart).TakeAll(Events([line]), 1) == FRESH;
  }
}
