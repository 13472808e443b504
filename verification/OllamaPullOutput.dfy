/**
 The state shown for a model and the incremental parser of the output of `ollama pull`.

 Each line is classified on its own, in a fixed order of tests: an error first, then success, the manifest,
 verification, writing, and last a layer with its percentage. The parser folds these events into the highest
 percentage, the first layer digest, and whether an error, a success or a verification has been seen.

 Letters are lowered, and digits and spaces recognised, within ASCII.
 */
module OllamaPullOutput {
  import opened Options
  import opened Text

  datatype PullState =
    | NotPulled
    | Pulling(progress: real)
    | Pulled(digest: Option<string>)
    | Failed(message: string)

  predicate IsTagChar(c: char) {
    'a' <= c <= 'z' || 'A' <= c <= 'Z' || '0' <= c <= '9' || c in ".:_-/"
  }

  predicate IsValidModelTag(tag: string) {
    tag != "" && |tag| <= 128 && forall c <- tag :: IsTagChar(c)
  }

  predicate IsDigit(c: char) {
    '0' <= c <= '9'
  }

  predicate IsHex(c: char) {
    IsDigit(c) || 'a' <= c <= 'f' || 'A' <= c <= 'F'
  }

  // ---------------------------------------------------------------------------------------------------
  // One line
  // ---------------------------------------------------------------------------------------------------

  datatype PullEvent =
    | ManifestStart
    | LayerProgress(digest: Option<string>, percent: nat)
    | Verifying
    | Writing
    | Success
    | Error(message: string)
    | Unknown

  function Value(digits: string): nat {
    if digits == "" then 0
    else 10 * Value(digits[..|digits| - 1]) +
         (var c := digits[|digits| - 1]; if IsDigit(c) then c as int - '0' as int else 0)
  }

  /** The number right before the first percent sign. */
  function ExtractPercent(line: string): Option<nat> {
    var sign := SkipWhile(line, c => c != '%', 0);
    if sign == |line| then None
    else
      var end := SkipBackWhile(line, IsSpaceOrNewline, sign);
      var start := SkipBackWhile(line, IsDigit, end);
      if start == end then None else Some(Value(line[start..end]))
  }

  function ExtractLayerDigest(line: string): Option<string>
    requires "pulling " <= line
  {
    var rest := line[|"pulling "|..];
    var token := rest[..SkipWhile(rest, c => !IsSpaceOrNewline(c) && c != '.', 0)];
    if token != "" && forall c <- token :: IsHex(c) then Some(token) else None
  }

  function Classify(rawLine: string): PullEvent {
    var line := Trim(rawLine, IsSpaceOrNewline);
    if line == "" then Unknown
    else if "error" <= Lower(line) then Error(line)
    else if line == "success" then Success
    else if "pulling manifest" <= line then ManifestStart
    else if "verifying" <= line then Verifying
    else if "writing" <= line then Writing
    else if "pulling " <= line && ExtractPercent(line).Some? then
      LayerProgress(ExtractLayerDigest(line), ExtractPercent(line).value)
    else Unknown
  }

  // ---------------------------------------------------------------------------------------------------
  // The parser
  // ---------------------------------------------------------------------------------------------------

  datatype Parser = Parser(
    maxPercent: nat, layerDigest: Option<string>, manifestVerified: bool, didSucceed: bool,
    errorMessage: Option<string>)
  {
    function Progress(): real {
      if maxPercent < 100 then maxPercent as real / 100.0 else 1.0
    }

    function State(): PullState {
      if errorMessage.Some? then Failed(errorMessage.value)
      else if didSucceed then Pulled(layerDigest)
      else if maxPercent > 0 || manifestVerified then Pulling(Progress())
      else NotPulled
    }

    function Take(e: PullEvent): Parser {
      match e
      case Error(message) => this.(errorMessage := Some(message))
      case Success => this.(didSucceed := true, maxPercent := if maxPercent < 100 then 100 else maxPercent)
      case Verifying => this.(manifestVerified := true)
      case LayerProgress(digest, percent) =>
        this.(layerDigest := if layerDigest == None then digest else layerDigest,
              maxPercent := if percent >= maxPercent then percent else maxPercent)
      case _ => this
    }

    /** The parser after `events[from..]`. */
    function TakeAll(events: seq<PullEvent>, from: nat := 0): Parser
      decreases |events| - from
    {
      if |events| <= from then this else Take(events[from]).TakeAll(events, from + 1)
    }

    function FeedAll(lines: seq<string>): Parser {
      TakeAll(Events(lines))
    }
  }

  function Events(lines: seq<string>): (r: seq<PullEvent>)
    ensures |r| == |lines|
  {
    seq(|lines|, i requires 0 <= i < |lines| => Classify(lines[i]))
  }

  const FRESH := Parser(0, None, false, false, None)

  // ---------------------------------------------------------------------------------------------------
  // What lines do to the state
  // ---------------------------------------------------------------------------------------------------

  /** What gives the parser something to show. */
  predicate Shows(e: PullEvent) {
    e.Error? || e.Success? || e.Verifying? || (e.LayerProgress? && e.percent > 0)
  }

  lemma {:induction false} NotPulledSplit(p: Parser, events: seq<PullEvent>, from: nat)
    ensures p.TakeAll(events, from).State() == NotPulled
       <==> p.State() == NotPulled && forall k :: from <= k < |events| ==> !Shows(events[k])
    decreases |events| - from
  {
    if from < |events| {
      var q := p.Take(events[from]);
      assert q.State() == NotPulled <==> p.State() == NotPulled && !Shows(events[from]);
      NotPulledSplit(q, events, from + 1);
    }
  }

  /**
   A pull shows as not pulled again exactly while no line has carried an error, a success, a verification or a
   positive percentage; the opening `pulling manifest` line alone takes a running pull back there.
   */
  lemma {:induction false} ShownNotPulledExactly(lines: seq<string>)
    ensures FRESH.FeedAll(lines).State() == NotPulled <==> forall k :: 0 <= k < |lines| ==> !Shows(Events(lines)[k])
  {
    NotPulledSplit(FRESH, Events(lines), 0);
  }

  /** How a running pull may develop: progress never falls, success may still fail, failure stays. */
  ghost predicate MayBecome(a: PullState, b: PullState) {
    match a
    case NotPulled => true
    case Pulling(x) => b.Failed? || b.Pulled? || (b.Pulling? && x <= b.progress)
    case Pulled(_) => b.Failed? || b.Pulled?
    case Failed(_) => b.Failed?
  }

  /** More lines never take the state backwards. */
  lemma {:induction false} NeverBackwards(p: Parser, lines: seq<string>)
    ensures MayBecome(p.State(), p.FeedAll(lines).State())
  {
    EventsNeverBackwards(p, Events(lines), 0);
  }

  lemma {:induction false} EventsNeverBackwards(p: Parser, events: seq<PullEvent>, from: nat)
    ensures MayBecome(p.State(), p.TakeAll(events, from).State())
    decreases |events| - from
  {
    if from < |events| {
      var q := p.Take(events[from]);
      assert MayBecome(p.State(), q.State()) && p.maxPercent <= q.maxPercent;
      EventsNeverBackwards(q, events, from + 1);
    }
  }
}
