/**
 The live metrics of a pane: totals, breakdowns by feature and command, and series for the charts.

 One call of `record` updates a dozen fields: plain counters, maps keyed by feature, by command family, and by both,
 one overall series of cumulative points and one capped series per feature.

 What the fields mean is stated by grouping the whole run of commands directly: a feature's or a family's own
 commands, their sums, and the full series of which the capped one is the end.
 */
module PaneMetrics {
  import opened Options
  import opened Text

  const MAX_POINTS := 1000

  datatype Point = Point(saved: int, raw: int)

  datatype Bytes = Bytes(raw: int, filtered: int)

  /** The arguments of one call of `record`. */
  datatype Command = Command(raw: int, filtered: int, secrets: int, feature: Option<string>, command: Option<string>,
                             patterns: seq<string>)
  {
    function Saved(): int {
      raw - filtered
    }
  }

  datatype Totals = Totals(
    commandCount: int, raw: int, filtered: int, secrets: int, secretPatterns: map<string, int>,
    featureSaved: map<string, int>, featureCount: map<string, int>, featureCommands: map<string, map<string, int>>,
    breakdown: map<string, Bytes>, series: seq<Point>, featureSeries: map<string, seq<Point>>)

  function Get<T>(m: map<string, T>, key: string, otherwise: T): T {
    if key in m then m[key] else otherwise
  }

  /** The first word of a command, or the command itself if it is all spaces. */
  function BaseOf(command: string): string {
    var i := SkipWhile(command, c => c == ' ', 0);
    var j := SkipWhile(command, c => c != ' ', i);
    if i < |command| then command[i..j] else command
  }

  function CountPatterns(counts: map<string, int>, patterns: seq<string>, from: nat := 0): map<string, int>
    decreases |patterns| - from
  {
    if |patterns| <= from then counts
    else CountPatterns(counts[patterns[from] := Get(counts, patterns[from], 0) + 1], patterns, from + 1)
  }

  function LastPoint(series: seq<Point>): Point {
    if series == [] then Point(0, 0) else series[|series| - 1]
  }

  /** A point behind the others; the oldest goes if there are too many. */
  function Push(series: seq<Point>, p: Point): seq<Point> {
    var longer := series + [p];
    if |longer| > MAX_POINTS then longer[1..] else longer
  }

  function NextPoint(series: seq<Point>, c: Command): Point {
    var last := LastPoint(series);
    Point(last.saved + c.Saved(), last.raw + c.raw)
  }

  /** Adds to the entry of the feature the command was recorded for. */
  function AddFor(m: map<string, int>, feature: Option<string>, amount: int): map<string, int> {
    if feature.Some? then m[feature.value := Get(m, feature.value, 0) + amount] else m
  }

  function AddCommand(m: map<string, map<string, int>>, c: Command): map<string, map<string, int>> {
    if c.feature.Some? && c.command.Some? then
      m[c.feature.value := AddFor(Get(m, c.feature.value, map[]), Some(BaseOf(c.command.value)), c.Saved())]
    else m
  }

  function AddBytes(m: map<string, Bytes>, c: Command): map<string, Bytes> {
    if c.command.Some? then
      var base := BaseOf(c.command.value);
      var existing := Get(m, base, Bytes(0, 0));
      m[base := Bytes(existing.raw + c.raw, existing.filtered + c.filtered)]
    else m
  }

  function AddPoint(m: map<string, seq<Point>>, c: Command): map<string, seq<Point>> {
    if c.feature.Some? then
      var series := Get(m, c.feature.value, []);
      m[c.feature.value := Push(series, NextPoint(series, c))]
    else m
  }

  function Recorded(t: Totals, c: Command): Totals {
    var raw, filtered := t.raw + c.raw, t.filtered + c.filtered;
    Totals(
      t.commandCount + 1, raw, filtered, t.secrets + c.secrets, CountPatterns(t.secretPatterns, c.patterns),
      AddFor(t.featureSaved, c.feature, c.Saved()), AddFor(t.featureCount, c.feature, 1),
      AddCommand(t.featureCommands, c), AddBytes(t.breakdown, c), t.series + [Point(raw - filtered, raw)],
      AddPoint(t.featureSeries, c))
  }

  const NOTHING := Totals(0, 0, 0, 0, map[], map[], map[], map[], map[], [], map[])

  class PaneMetrics {
    var commandCount: int
    var totalRawBytes: int
    var totalFilteredBytes: int
    var secretsCaught: int
    var secretPatterns: map<string, int>
    var perFeatureSaved: map<string, int>
    var perFeatureCommandCount: map<string, int>
    var perFeatureCommands: map<string, map<string, int>>
    var commandBreakdown: map<string, Bytes>
    var timeSeries: seq<Point>
    var perFeatureTimeSeries: map<string, seq<Point>>

    constructor ()
      ensures View() == NOTHING
    {
      commandCount, totalRawBytes, totalFilteredBytes, secretsCaught := 0, 0, 0, 0;
      secretPatterns, perFeatureSaved, perFeatureCommandCount, perFeatureCommands := map[], map[], map[], map[];
      commandBreakdown, timeSeries, perFeatureTimeSeries := map[], [], map[];
    }

    function View(): Totals
      reads this
    {
      Totals(commandCount, totalRawBytes, totalFilteredBytes, secretsCaught, secretPatterns, perFeatureSaved,
             perFeatureCommandCount, perFeatureCommands, commandBreakdown, timeSeries, perFeatureTimeSeries)
    }

    method Record(c: Command)
      modifies this
      ensures View() == Recorded(old(View()), c)
    {
      RecordTotals(c);
      TrackPatterns(c.patterns);
      RecordFeature(c);
      RecordCommand(c);
      timeSeries := timeSeries + [Point(totalRawBytes - totalFilteredBytes, totalRawBytes)];
    }

    method RecordTotals(c: Command)
      modifies this`totalRawBytes, this`totalFilteredBytes, this`commandCount, this`secretsCaught
      ensures totalRawBytes == old(totalRawBytes) + c.raw && totalFilteredBytes == old(totalFilteredBytes) + c.filtered
      ensures commandCount == old(commandCount) + 1 && secretsCaught == old(secretsCaught) + c.secrets
    {
      totalRawBytes := totalRawBytes + c.raw;
      totalFilteredBytes := totalFilteredBytes + c.filtered;
      commandCount := commandCount + 1;
      secretsCaught := secretsCaught + c.secrets;
    }

    method RecordFeature(c: Command)
      modifies this`perFeatureSaved, this`perFeatureCommandCount, this`perFeatureCommands, this`perFeatureTimeSeries
      ensures perFeatureSaved == AddFor(old(perFeatureSaved), c.feature, c.Saved())
      ensures perFeatureCommandCount == AddFor(old(perFeatureCommandCount), c.feature, 1)
      ensures perFeatureCommands == AddCommand(old(perFeatureCommands), c)
      ensures perFeatureTimeSeries == AddPoint(old(perFeatureTimeSeries), c)
    {
      if c.feature == None {
        return;
      }
      var f, saved := c.feature.value, c.raw - c.filtered;
      perFeatureSaved := perFeatureSaved[f := Get(perFeatureSaved, f, 0) + saved];
      perFeatureCommandCount := perFeatureCommandCount[f := Get(perFeatureCommandCount, f, 0) + 1];
      if c.command.Some? {
        var base, commands := BaseOf(c.command.value), Get(perFeatureCommands, f, map[]);
        commands := commands[base := Get(commands, base, 0) + saved];
        perFeatureCommands := perFeatureCommands[f := commands];
      }
      var series := Get(perFeatureTimeSeries, f, []);
      series := series + [NextPoint(series, c)];
      if |series| > MAX_POINTS {
        series := series[1..];
      }
      perFeatureTimeSeries := perFeatureTimeSeries[f := series];
    }

    method RecordCommand(c: Command)
      modifies this`commandBreakdown
      ensures commandBreakdown == AddBytes(old(commandBreakdown), c)
    {
      if c.command.Some? {
        var base := BaseOf(c.command.value);
        var existing := Get(commandBreakdown, base, Bytes(0, 0));
        commandBreakdown := commandBreakdown[base := Bytes(existing.raw + c.raw, existing.filtered + c.filtered)];
      }
    }

    method TrackPatterns(patterns: seq<string>)
      modifies this`secretPatterns
      ensures secretPatterns == CountPatterns(old(secretPatterns), patterns)
    {
      for i := 0 to |patterns|
        invariant CountPatterns(secretPatterns, patterns, i) == CountPatterns(old(secretPatterns), patterns)
      {
        secretPatterns := secretPatterns[patterns[i] := Get(secretPatterns, patterns[i], 0) + 1];
      }
    }

    method Reset()
      modifies this
      ensures View() == NOTHING
    {
      commandCount, totalRawBytes, totalFilteredBytes, secretsCaught := 0, 0, 0, 0;
      secretPatterns, perFeatureSaved, perFeatureCommandCount, perFeatureCommands := map[], map[], map[], map[];
      commandBreakdown, timeSeries, perFeatureTimeSeries := map[], [], map[];
    }
  }

  // ---------------------------------------------------------------------------------------------------
  // Runs, and their accounts by direct grouping
  // ---------------------------------------------------------------------------------------------------

  function Init<T>(s: seq<T>): seq<T>
    requires s != []
  {
    s[..|s| - 1]
  }

  function Last<T>(s: seq<T>): T
    requires s != []
  {
    s[|s| - 1]
  }

  function RecordAll(t: Totals, cs: seq<Command>): Totals
    decreases |cs|
  {
    if cs == [] then t else Recorded(RecordAll(t, Init(cs)), Last(cs))
  }

  function OfFeature(cs: seq<Command>, f: string): seq<Command>
    decreases |cs|
  {
    if cs == [] then []
    else if Last(cs).feature == Some(f) then OfFeature(Init(cs), f) + [Last(cs)]
    else OfFeature(Init(cs), f)
  }

  predicate HasBase(c: Command, base: string) {
    c.command.Some? && BaseOf(c.command.value) == base
  }

  function OfBase(cs: seq<Command>, base: string): seq<Command>
    decreases |cs|
  {
    if cs == [] then []
    else if HasBase(Last(cs), base) then OfBase(Init(cs), base) + [Last(cs)]
    else OfBase(Init(cs), base)
  }

  function Unnamed(cs: seq<Command>): seq<Command>
    decreases |cs|
  {
    if cs == [] then []
    else if Last(cs).command == None then Unnamed(Init(cs)) + [Last(cs)]
    else Unnamed(Init(cs))
  }

  function SumRaw(cs: seq<Command>): int
    decreases |cs|
  {
    if cs == [] then 0 else SumRaw(Init(cs)) + Last(cs).raw
  }

  function SumFiltered(cs: seq<Command>): int
    decreases |cs|
  {
    if cs == [] then 0 else SumFiltered(Init(cs)) + Last(cs).filtered
  }

  function SumSaved(cs: seq<Command>): int {
    SumRaw(cs) - SumFiltered(cs)
  }

  /** The cumulative points after each command, none forgotten. */
  function AllPoints(cs: seq<Command>, saved: int, raw: int): (r: seq<Point>)
    ensures |r| == |cs|
    decreases |cs|
  {
    if cs == [] then [] else AllPoints(Init(cs), saved, raw) + [Point(saved + SumSaved(cs), raw + SumRaw(cs))]
  }

  function Latest(series: seq<Point>): seq<Point> {
    if |series| > MAX_POINTS then series[|series| - MAX_POINTS..] else series
  }

  /** A pane that is new, or whose totals were restored. */
  ghost predicate IsBase(t: Totals) {
    t.featureSaved == map[] && t.featureCount == map[] && t.featureCommands == map[] && t.breakdown == map[]
      && t.featureSeries == map[]
  }

  // ---------------------------------------------------------------------------------------------------
  // Conservation
  // ---------------------------------------------------------------------------------------------------

  lemma {:induction false} FeatureTotals(t: Totals, cs: seq<Command>, f: string)
    requires IsBase(t)
    ensures var r, own := RecordAll(t, cs), OfFeature(cs, f);
      && Get(r.featureSaved, f, 0) == SumSaved(own) && Get(r.featureCount, f, 0) == |own|
      && (f in r.featureSaved <==> own != []) && (f in r.featureCount <==> own != [])
    decreases |cs|
  {
    if cs != [] {
      FeatureTotals(t, Init(cs), f);
    }
  }

  lemma {:induction false} PushLatest(series: seq<Point>, p: Point)
    ensures Push(Latest(series), p) == Latest(series + [p])
    ensures LastPoint(Latest(series)) == LastPoint(series)
  {
  }

  /** The series of a feature is the last 1000 points of the full cumulative series of its own commands. */
  lemma {:induction false} SeriesIsLatest(t: Totals, cs: seq<Command>, f: string)
    requires IsBase(t)
    ensures Get(RecordAll(t, cs).featureSeries, f, []) == Latest(AllPoints(OfFeature(cs, f), 0, 0))
    decreases |cs|
  {
    if cs != [] {
      SeriesIsLatest(t, Init(cs), f);
      if Last(cs).feature == Some(f) {
        PointsSnoc(OfFeature(Init(cs), f), Last(cs));
      }
    }
  }

  lemma {:induction false} PointsSnoc(own: seq<Command>, c: Command)
    ensures var series := Latest(AllPoints(own, 0, 0));
      Push(series, NextPoint(series, c)) == Latest(AllPoints(own + [c], 0, 0))
  {
    var all := AllPoints(own, 0, 0);
    assert Init(own + [c]) == own && Last(own + [c]) == c;
    assert LastPoint(all) == Point(SumSaved(own), SumRaw(own));
    assert AllPoints(own + [c], 0, 0) == all + [NextPoint(all, c)];
    PushLatest(all, NextPoint(all, c));
    assert NextPoint(Latest(all), c) == NextPoint(all, c);
  }

  /** The sparkline of a feature ends where its counter stands, however many points were dropped. */
  lemma {:induction false} SeriesEndsAtTotal(t: Totals, cs: seq<Command>, f: string)
    requires IsBase(t)
    ensures var r := RecordAll(t, cs);
      && LastPoint(Get(r.featureSeries, f, [])).saved == Get(r.featureSaved, f, 0)
      && |Get(r.featureSeries, f, [])| == if |OfFeature(cs, f)| < 1000 then |OfFeature(cs, f)| else 1000
  {
    SeriesIsLatest(t, cs, f);
    FeatureTotals(t, cs, f);
    PushLatest(AllPoints(OfFeature(cs, f), 0, 0), Point(0, 0));
  }

  lemma {:induction false} BaseTotals(t: Totals, cs: seq<Command>, base: string)
    requires IsBase(t)
    ensures var r, own := RecordAll(t, cs), OfBase(cs, base);
      && Get(r.breakdown, base, Bytes(0, 0)) == Bytes(SumRaw(own), SumFiltered(own))
      && (base in r.breakdown <==> own != [])
    decreases |cs|
  {
    if cs != [] {
      BaseTotals(t, Init(cs), base);
    }
  }

  /** What one command family saved under one feature. */
  lemma {:induction false} FeatureCommandTotals(t: Totals, cs: seq<Command>, f: string, base: string)
    requires IsBase(t)
    ensures Get(Get(RecordAll(t, cs).featureCommands, f, map[]), base, 0) == SumSaved(OfBase(OfFeature(cs, f), base))
    decreases |cs|
  {
    if cs != [] {
      FeatureCommandTotals(t, Init(cs), f, base);
      CommandAdded(RecordAll(t, Init(cs)).featureCommands, Last(cs), f, base);
      SavedByLast(cs, f, base);
    }
  }

  /** The command counts for this feature and family. */
  predicate Counts(c: Command, f: string, base: string) {
    c.feature == Some(f) && HasBase(c, base)
  }

  lemma {:induction false} CommandAdded(m: map<string, map<string, int>>, c: Command, f: string, base: string)
    ensures Get(Get(AddCommand(m, c), f, map[]), base, 0)
         == Get(Get(m, f, map[]), base, 0) + if Counts(c, f, base) then c.Saved() else 0
  {
  }

  lemma {:induction false} SavedByLast(cs: seq<Command>, f: string, base: string)
    requires cs != []
    ensures SumSaved(OfBase(OfFeature(cs, f), base))
         == SumSaved(OfBase(OfFeature(Init(cs), f), base)) + if Counts(Last(cs), f, base) then Last(cs).Saved() else 0
  {
    if Last(cs).feature == Some(f) {
      BaseSnoc(OfFeature(Init(cs), f), Last(cs), base);
    }
  }

  lemma {:induction false} BaseSnoc(own: seq<Command>, c: Command, base: string)
    ensures SumSaved(OfBase(own + [c], base)) == SumSaved(OfBase(own, base)) + if HasBase(c, base) then c.Saved() else 0
  {
    assert Init(own + [c]) == own && Last(own + [c]) == c;
    var of := OfBase(own, base);
    assert Init(of + [c]) == of && Last(of + [c]) == c;
  }

  /** The sum of a breakdown over all its command families. */
  ghost function Whole(m: map<string, Bytes>): Bytes
    decreases |m|
  {
    if m == map[] then Bytes(0, 0)
    else
      var key :| key in m;
      var rest := Whole(m - {key});
      Bytes(rest.raw + m[key].raw, rest.filtered + m[key].filtered)
  }

  lemma {:induction false} WholeWithout(m: map<string, Bytes>, key: string)
    requires key in m
    ensures var rest := Whole(m - {key}); Whole(m) == Bytes(rest.raw + m[key].raw, rest.filtered + m[key].filtered)
    decreases |m|
  {
    var first :| first in m && Whole(m) ==
      var rest := Whole(m - {first}); Bytes(rest.raw + m[first].raw, rest.filtered + m[first].filtered);
    if first != key {
      WholeWithout(m - {first}, key);
      WholeWithout(m - {key}, first);
      assert m - {first} - {key} == m - {key} - {first};
    }
  }

  lemma {:induction false} WholeUpdated(m: map<string, Bytes>, key: string, raw: int, filtered: int)
    ensures var was, now := Get(m, key, Bytes(0, 0)), Whole(m);
      Whole(m[key := Bytes(was.raw + raw, was.filtered + filtered)]) == Bytes(now.raw + raw, now.filtered + filtered)
  {
    var was := Get(m, key, Bytes(0, 0));
    var n := m[key := Bytes(was.raw + raw, was.filtered + filtered)];
    WholeWithout(n, key);
    assert n - {key} == m - {key};
    if key in m {
      WholeWithout(m, key);
    } else {
      assert m - {key} == m;
    }
  }

  lemma {:induction false} BytesAdded(m: map<string, Bytes>, c: Command)
    ensures var now := Whole(m);
      Whole(AddBytes(m, c)) == if c.command.Some? then Bytes(now.raw + c.raw, now.filtered + c.filtered) else now
  {
    if c.command.Some? {
      WholeUpdated(m, BaseOf(c.command.value), c.raw, c.filtered);
    }
  }

  /**
   Nothing is lost between the totals and the breakdown: over any run, from a new or a restored pane, the totals are
   what they were, plus the sum over all command families, plus what came without a command name.
   */
  lemma {:induction false} BytesAreConserved(t: Totals, cs: seq<Command>)
    requires IsBase(t)
    ensures var r := RecordAll(t, cs);
      var named, unnamed := Whole(r.breakdown), Unnamed(cs);
      && r.raw == t.raw + named.raw + SumRaw(unnamed)
      && r.filtered == t.filtered + named.filtered + SumFiltered(unnamed)
      && r.raw == t.raw + SumRaw(cs) && r.filtered == t.filtered + SumFiltered(cs)
    decreases |cs|
  {
    if cs != [] {
      BytesAreConserved(t, Init(cs));
      BytesAdded(RecordAll(t, Init(cs)).breakdown, Last(cs));
    }
  }

  /** The overall series is not capped, and goes on from the restored totals. */
  lemma {:induction false} OverallSeries(t: Totals, cs: seq<Command>)
    requires IsBase(t)
    ensures RecordAll(t, cs).series == t.series + AllPoints(cs, t.raw - t.filtered, t.raw)
    ensures RecordAll(t, cs).commandCount == t.commandCount + |cs|
    decreases |cs|
  {
    if cs != [] {
      OverallSeries(t, Init(cs));
      BytesAreConserved(t, cs);
    }
  }

  // ---------------------------------------------------------------------------------------------------
  // Secrets
  // ---------------------------------------------------------------------------------------------------

  function SumSecrets(cs: seq<Command>): int
    decreases |cs|
  {
    if cs == [] then 0 else SumSecrets(Init(cs)) + Last(cs).secrets
  }

  /** How often the pattern was reported. */
  function Occurrences(cs: seq<Command>, pattern: string): int
    decreases |cs|
  {
    if cs == [] then 0 else Occurrences(Init(cs), pattern) + multiset(Last(cs).patterns)[pattern]
  }

  lemma {:induction false} PatternsCounted(counts: map<string, int>, patterns: seq<string>, from: nat, pattern: string)
    requires from <= |patterns|
    ensures Get(CountPatterns(counts, patterns, from), pattern, 0)
         == Get(counts, pattern, 0) + multiset(patterns[from..])[pattern]
    ensures pattern in CountPatterns(counts, patterns, from) <==> pattern in counts || pattern in patterns[from..]
    decreases |patterns| - from
  {
    if from < |patterns| {
      var next := counts[patterns[from] := Get(counts, patterns[from], 0) + 1];
      PatternsCounted(next, patterns, from + 1, pattern);
      assert patterns[from..] == [patterns[from]] + patterns[from + 1..];
    }
  }

  /** The count of a pattern is what it was and every report of it since; the number of secrets adds up likewise. */
  lemma {:induction false} SecretTotals(t: Totals, cs: seq<Command>, pattern: string)
    ensures var r := RecordAll(t, cs);
      && r.secrets == t.secrets + SumSecrets(cs)
      && Get(r.secretPatterns, pattern, 0) == Get(t.secretPatterns, pattern, 0) + Occurrences(cs, pattern)
    decreases |cs|
  {
    if cs != [] {
      SecretTotals(t, Init(cs), pattern);
      var before, patterns := RecordAll(t, Init(cs)).secretPatterns, Last(cs).patterns;
      PatternsCounted(before, patterns, 0, pattern);
      assert patterns[0..] == patterns;
    }
  }

  // ---------------------------------------------------------------------------------------------------
  // Families
  // ---------------------------------------------------------------------------------------------------

  /** A family is the first word of its commands, whatever spaces stand before it. */
  lemma {:induction false} FamilyIsFirstWord(spaces: string, word: string, rest: string)
    requires (forall c <- spaces :: c == ' ') && word != "" && (forall c <- word :: c != ' ')
    requires rest != "" ==> rest[0] == ' '
    ensures BaseOf(spaces + word + rest) == word
  {
    var command := spaces + word + rest;
    assert forall k :: 0 <= k < |spaces| ==> command[k] in spaces;
    assert command[|spaces|] == word[0] && word[0] in word;
    SkipWhileIs(command, c => c == ' ', 0, |spaces|);
    assert forall k :: |spaces| <= k < |spaces| + |word| ==> command[k] == word[k - |spaces|] && command[k] in word;
    assert rest != "" ==> command[|spaces| + |word|] == rest[0];
    SkipWhileIs(command, c => c != ' ', |spaces|, |spaces| + |word|);
  }

  /** A command of spaces only is its own family. */
  lemma {:induction false} FamilyOfSpaces(command: string)
    requires forall c <- command :: c == ' '
    ensures BaseOf(command) == command
  {
    assert forall k :: 0 <= k < |command| ==> command[k] in command;
    SkipWhileIs(command, c => c == ' ', 0, |command|);
  }
}
