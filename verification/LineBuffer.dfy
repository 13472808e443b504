/**
 The line buffer between the pipes of `ollama pull` and its output parser.

 Text arrives in chunks of any size. Complete lines that are not empty go to the parser, and the rest waits for the
 next chunk.
 */
module LineBuffer {
  // A text is a sequence of Unicode scalars. Swift compares whole `Character`s, and a CR followed by an LF is a
  // single `Character` equal to neither, so such a pair does not end a line.

  predicate EndsLine(text: string, i: nat) {
    i < |text| &&
    (|| (text[i] == '\n' && !(0 < i && text[i - 1] == '\r'))
     || (text[i] == '\r' && !(i + 1 < |text| && text[i + 1] == '\n')))
  }

  function NextEnd(text: string, from: nat): (i: nat)
    requires from <= |text|
    ensures from <= i <= |text|
    decreases |text| - from
  {
    if from == |text| || EndsLine(text, from) then from else NextEnd(text, from + 1)
  }

  /** Where a line lies in the text. */
  datatype Span = Span(start: nat, end: nat) {
    function In(text: string): string {
      if start <= end <= |text| then text[start..end] else ""
    }
  }

  /** The non-empty complete lines from position `from` on, by their place. */
  function Spans(text: string, from: nat): seq<Span>
    requires from <= |text|
    decreases |text| - from
  {
    var i := NextEnd(text, from);
    if i == |text| then []
    else if i == from then Spans(text, i + 1)
    else [Span(from, i)] + Spans(text, i + 1)
  }

  function Pieces(text: string, spans: seq<Span>): (r: seq<string>)
    ensures |r| == |spans|
  {
    seq(|spans|, j requires 0 <= j < |spans| => spans[j].In(text))
  }

  /** The non-empty complete lines from position `from` on. */
  function Lines(text: string, from: nat): seq<string>
    requires from <= |text|
  {
    Pieces(text, Spans(text, from))
  }

  function NonEmpty(line: string): seq<string> {
    if |line| == 0 then [] else [line]
  }

  /** Where the unfinished last line starts. */
  function RestStart(text: string, from: nat): (r: nat)
    requires from <= |text|
    ensures from <= r <= |text|
    decreases |text| - from
  {
    var i := NextEnd(text, from);
    if i == |text| then from else RestStart(text, i + 1)
  }

  function Residual(text: string): string {
    text[RestStart(text, 0)..]
  }

  /** The lines handed on, and what is kept for later. */
  datatype Drained = Drained(lines: seq<string>, residual: string)

  function Drain(text: string): Drained {
    Drained(Lines(text, 0), Residual(text))
  }

  /** `split(whereSeparator:)`: the non-empty pieces, the last one terminated or not. */
  function Segments(text: string): seq<string> {
    Lines(text, 0) + NonEmpty(Residual(text))
  }

  class LineBuffer {
    var residual: string

    constructor ()
      ensures residual == ""
    {
      residual := "";
    }

    method Append(chunk: string) returns (lines: seq<string>)
      modifies this
      ensures Drained(lines, residual) == Drain(old(residual) + chunk)
    {
      residual := residual + chunk;
      lines := [];
      ghost var text := residual;
      while true
        invariant lines + Lines(residual, 0) == Lines(text, 0)
        invariant Residual(residual) == Residual(text)
        decreases |residual|
      {
        var idx := NextEnd(residual, 0);
        if idx == |residual| {
          NoLine(residual);
          break;
        }
        FirstLine(residual);
        var line := residual[..idx];
        Assoc(lines, NonEmpty(line), Lines(residual[idx + 1..], 0));
        if line != "" {
          lines := lines + [line];
        }
        residual := residual[idx + 1..];
      }
    }
  }

  // ---------------------------------------------------------------------------------------------------
  // Cutting a text
  // ---------------------------------------------------------------------------------------------------

  /** The cut at `k` falls inside a CR LF pair. */
  predicate SplitAt(text: string, k: nat) {
    0 < k < |text| && text[k - 1] == '\r' && text[k] == '\n'
  }

  lemma {:induction false} NextEndShift(text: string, k: nat, from: nat)
    requires k + from <= |text| && !SplitAt(text, k)
    ensures NextEnd(text, k + from) == k + NextEnd(text[k..], from)
    decreases |text| - k - from
  {
    if k + from < |text| && !EndsLine(text, k + from) {
      NextEndShift(text, k, from + 1);
    }
  }

  lemma {:induction false} PiecesAppend(text: string, a: seq<Span>, b: seq<Span>)
    ensures Pieces(text, a + b) == Pieces(text, a) + Pieces(text, b)
  {
  }

  lemma {:induction false} LinesStep(text: string, from: nat)
    requires from <= |text| && NextEnd(text, from) < |text|
    ensures var i := NextEnd(text, from); Lines(text, from) == NonEmpty(text[from..i]) + Lines(text, i + 1)
  {
    var i := NextEnd(text, from);
    if i > from {
      PiecesAppend(text, [Span(from, i)], Spans(text, i + 1));
    }
  }

  lemma {:induction false} RestShift(text: string, k: nat, t: string, from: nat)
    requires k <= |text| && t == text[k..] && from <= |t| && !SplitAt(text, k)
    ensures RestStart(text, k + from) == k + RestStart(t, from)
    decreases |t| - from
  {
    NextEndShift(text, k, from);
    if NextEnd(t, from) < |t| {
      RestShift(text, k, t, NextEnd(t, from) + 1);
    }
  }

  ghost predicate Within(spans: seq<Span>, n: nat) {
    forall j :: 0 <= j < |spans| ==> spans[j].start <= spans[j].end <= n
  }

  lemma {:induction false} SpansWithin(text: string, from: nat)
    requires from <= |text|
    ensures Within(Spans(text, from), |text|)
    decreases |text| - from
  {
    var i := NextEnd(text, from);
    if i < |text| {
      SpansWithin(text, i + 1);
    }
  }

  function Moved(spans: seq<Span>, k: nat): (r: seq<Span>)
    ensures |r| == |spans|
  {
    seq(|spans|, j requires 0 <= j < |spans| => Span(spans[j].start + k, spans[j].end + k))
  }

  lemma {:induction false} MovedCons(s: Span, rest: seq<Span>, k: nat)
    ensures Moved([s] + rest, k) == [Span(s.start + k, s.end + k)] + Moved(rest, k)
  {
  }

  lemma {:induction false} SpansShift(text: string, k: nat, t: string, from: nat)
    requires k <= |text| && t == text[k..] && from <= |t| && !SplitAt(text, k)
    ensures Spans(text, k + from) == Moved(Spans(t, from), k)
    decreases |t| - from
  {
    NextEndShift(text, k, from);
    var i := NextEnd(t, from);
    if i < |t| {
      SpansShift(text, k, t, i + 1);
    }
    SpansShiftStep(text, k, t, from);
  }

  /** The first line moves with the others. */
  lemma {:induction false} SpansShiftStep(text: string, k: nat, t: string, from: nat)
    requires from <= |t| && |text| == k + |t| && NextEnd(text, k + from) == k + NextEnd(t, from)
    requires var i := NextEnd(t, from); i < |t| ==> Spans(text, k + i + 1) == Moved(Spans(t, i + 1), k)
    ensures Spans(text, k + from) == Moved(Spans(t, from), k)
  {
    var i := NextEnd(t, from);
    if i < |t| {
      MovedCons(Span(from, i), Spans(t, i + 1), k);
    }
  }

  lemma {:induction false} LinesShift(text: string, k: nat, t: string, from: nat)
    requires k <= |text| && t == text[k..] && from <= |t| && !SplitAt(text, k)
    ensures Lines(text, k + from) == Lines(t, from)
  {
    SpansShift(text, k, t, from);
    SpansWithin(t, from);
    PiecesMoved(text, k, t, Spans(t, from));
  }

  lemma {:induction false} PiecesMoved(text: string, k: nat, t: string, spans: seq<Span>)
    requires k <= |text| && t == text[k..] && Within(spans, |t|)
    ensures Pieces(text, Moved(spans, k)) == Pieces(t, spans)
  {
    forall j | 0 <= j < |spans| ensures Pieces(text, Moved(spans, k))[j] == Pieces(t, spans)[j]
    {
      var s := spans[j];
      assert text[k + s.start..k + s.end] == t[s.start..s.end];
    }
  }

  lemma {:induction false} FirstLines(text: string)
    requires NextEnd(text, 0) < |text|
    ensures var i := NextEnd(text, 0);
      !SplitAt(text, i + 1) && Lines(text, 0) == NonEmpty(text[..i]) + Lines(text[i + 1..], 0)
  {
    var i := NextEnd(text, 0);
    NextEndIsFirst(text, 0);
    LinesStep(text, 0);
    assert text[0..i] == text[..i];
    LinesShift(text, i + 1, text[i + 1..], 0);
  }

  lemma {:induction false} FirstLine(text: string)
    requires NextEnd(text, 0) < |text|
    ensures var i := NextEnd(text, 0);
      && Lines(text, 0) == NonEmpty(text[..i]) + Lines(text[i + 1..], 0)
      && Residual(text) == Residual(text[i + 1..])
  {
    var i := NextEnd(text, 0);
    FirstLines(text);
    RestShift(text, i + 1, text[i + 1..], 0);
    var r := RestStart(text[i + 1..], 0);
    assert text[i + 1 + r..] == text[i + 1..][r..];
  }

  lemma {:induction false} NoLine(text: string)
    requires NextEnd(text, 0) == |text|
    ensures Drain(text) == Drained([], text)
  {
    assert text[0..] == text;
  }

  lemma {:induction false} NextEndPrefix(a: string, b: string, from: nat)
    requires from <= |a| && !SplitAt(a + b, |a|)
    ensures NextEnd(a, from) < |a| ==> NextEnd(a + b, from) == NextEnd(a, from)
    decreases |a| - from
  {
    if from < |a| && !EndsLine(a, from) {
      assert (a + b)[from] == a[from];
      NextEndPrefix(a, b, from + 1);
    }
  }

  lemma {:induction false} Assoc<T>(a: seq<T>, b: seq<T>, c: seq<T>)
    ensures (a + b) + c == a + (b + c)
  {
  }

  lemma {:induction false} RestPrefix(a: string, b: string, from: nat)
    requires from <= |a| && !SplitAt(a + b, |a|)
    ensures RestStart(a + b, from) == RestStart(a + b, RestStart(a, from))
    decreases |a| - from
  {
    if NextEnd(a, from) < |a| {
      NextEndPrefix(a, b, from);
      RestPrefix(a, b, NextEnd(a, from) + 1);
    }
  }

  lemma {:induction false} SpansPrefix(a: string, b: string, from: nat)
    requires from <= |a| && !SplitAt(a + b, |a|)
    ensures Spans(a + b, from) == Spans(a, from) + Spans(a + b, RestStart(a, from))
    decreases |a| - from
  {
    var i := NextEnd(a, from);
    if i < |a| {
      NextEndPrefix(a, b, from);
      SpansPrefix(a, b, i + 1);
      Assoc([Span(from, i)], Spans(a, i + 1), Spans(a + b, RestStart(a, i + 1)));
    }
  }

  lemma {:induction false} PiecesOfPrefix(a: string, b: string, spans: seq<Span>)
    requires Within(spans, |a|)
    ensures Pieces(a + b, spans) == Pieces(a, spans)
  {
    forall j | 0 <= j < |spans| ensures Pieces(a + b, spans)[j] == Pieces(a, spans)[j]
    {
      var s := spans[j];
      assert (a + b)[s.start..s.end] == a[s.start..s.end];
    }
  }

  lemma {:induction false} LinesPrefix(a: string, b: string, from: nat)
    requires from <= |a| && !SplitAt(a + b, |a|)
    ensures Lines(a + b, from) == Lines(a, from) + Lines(a + b, RestStart(a, from))
  {
    SpansPrefix(a, b, from);
    SpansWithin(a, from);
    PiecesAppend(a + b, Spans(a, from), Spans(a + b, RestStart(a, from)));
    PiecesOfPrefix(a, b, Spans(a, from));
  }

  lemma {:induction false} NextEndIsFirst(text: string, from: nat)
    requires from <= |text|
    ensures var i := NextEnd(text, from);
      (i < |text| ==> EndsLine(text, i)) && forall j :: from <= j < i ==> !EndsLine(text, j)
    decreases |text| - from
  {
    if from < |text| && !EndsLine(text, from) {
      NextEndIsFirst(text, from + 1);
    }
  }

  lemma {:induction false} RestAfterEnd(text: string, from: nat)
    requires from <= |text| && !SplitAt(text, from)
    ensures !SplitAt(text, RestStart(text, from))
    ensures forall j :: RestStart(text, from) <= j < |text| ==> !EndsLine(text, j)
    decreases |text| - from
  {
    NextEndIsFirst(text, from);
    var i := NextEnd(text, from);
    if i < |text| {
      RestAfterEnd(text, i + 1);
    }
  }

  lemma {:induction false} SuffixDrain(text: string, k: nat)
    requires k <= |text| && !SplitAt(text, k)
    ensures Lines(text, k) == Lines(text[k..], 0) && text[RestStart(text, k)..] == Residual(text[k..])
  {
    LinesShift(text, k, text[k..], 0);
    RestShift(text, k, text[k..], 0);
    var r := RestStart(text[k..], 0);
    assert text[k + r..] == text[k..][r..];
  }

  /** Draining a prefix first, then the rest behind what it left, is draining the whole. */
  lemma {:induction false} DrainInTwo(a: string, b: string)
    requires !SplitAt(a + b, |a|)
    ensures Drain(a + b).lines == Drain(a).lines + Drain(Residual(a) + b).lines
    ensures Drain(a + b).residual == Drain(Residual(a) + b).residual
  {
    var k := RestStart(a, 0);
    RestAfterEnd(a, 0);
    LinesPrefix(a, b, 0);
    RestPrefix(a, b, 0);
    assert (a + b)[k..] == Residual(a) + b;
    assert !SplitAt(a + b, k);
    SuffixDrain(a + b, k);
  }

  // ---------------------------------------------------------------------------------------------------
  // Characters kept
  // ---------------------------------------------------------------------------------------------------

  /** The number of line ends from position `from` on. */
  function Ends(text: string, from: nat): nat
    requires from <= |text|
    decreases |text| - from
  {
    if from == |text| then 0 else (if EndsLine(text, from) then 1 else 0) + Ends(text, from + 1)
  }

  function Chars(lines: seq<string>): nat
    decreases |lines|
  {
    if lines == [] then 0 else |lines[0]| + Chars(lines[1..])
  }

  lemma {:induction false} CharsAppend(a: seq<string>, b: seq<string>)
    ensures Chars(a + b) == Chars(a) + Chars(b)
    decreases |a|
  {
    if a == [] {
      assert a + b == b;
    } else {
      assert (a + b)[1..] == a[1..] + b;
      CharsAppend(a[1..], b);
    }
  }

  function Kept(d: Drained): nat {
    Chars(d.lines) + |d.residual|
  }

  lemma {:induction false} EndsUpTo(text: string, from: nat)
    requires from <= |text|
    ensures var i := NextEnd(text, from); Ends(text, from) == Ends(text, i)
    decreases |text| - from
  {
    if from < |text| && !EndsLine(text, from) {
      EndsUpTo(text, from + 1);
    }
  }

  lemma {:induction false} LinesKeep(text: string, from: nat)
    requires from <= |text|
    ensures Chars(Lines(text, from)) + (|text| - RestStart(text, from)) == |text| - from - Ends(text, from)
    decreases |text| - from
  {
    EndsUpTo(text, from);
    NextEndIsFirst(text, from);
    var i := NextEnd(text, from);
    if i < |text| {
      LinesStep(text, from);
      LinesKeep(text, i + 1);
      CharsAppend(NonEmpty(text[from..i]), Lines(text, i + 1));
    }
  }

  /** Only line ends are dropped. */
  lemma {:induction false} DrainKeeps(text: string)
    ensures Kept(Drain(text)) == |text| - Ends(text, 0)
  {
    LinesKeep(text, 0);
  }

  lemma {:induction false} NoEnds(text: string, from: nat)
    requires from <= |text| && forall j :: from <= j < |text| ==> !EndsLine(text, j)
    ensures Ends(text, from) == 0
    decreases |text| - from
  {
    if from < |text| {
      NoEnds(text, from + 1);
    }
  }

  /** The residual holds no line end and does not end in CR. */
  lemma {:induction false} ResidualIsUnfinished(text: string)
    ensures var r := Residual(text);
      Ends(r, 0) == 0 && (r != "" ==> r[|r| - 1] != '\r') && forall j :: 0 <= j < |r| ==> !EndsLine(r, j)
  {
    var r, k := Residual(text), RestStart(text, 0);
    RestAfterEnd(text, 0);
    forall j | 0 <= j < |r| ensures !EndsLine(r, j)
    {
      assert r[j] == text[k + j] && !EndsLine(text, k + j);
    }
    NoEnds(r, 0);
    if r != "" {
      assert !EndsLine(r, |r| - 1);
    }
  }

  lemma {:induction false} EndsShift(a: string, b: string, from: nat)
    requires |a| <= from <= |a + b| && (from == |a| ==> !SplitAt(a + b, |a|))
    ensures Ends(a + b, from) == Ends(b, from - |a|)
    decreases |a + b| - from
  {
    if from < |a + b| {
      EndsShift(a, b, from + 1);
    }
  }

  /** A cut inside a pair turns both halves into line ends. */
  lemma {:induction false} EndsInTwo(a: string, b: string, from: nat)
    requires from <= |a|
    ensures Ends(a + b, from) == Ends(a, from) + Ends(b, 0)
      - (if SplitAt(a + b, |a|) && from < |a| then 2 else if SplitAt(a + b, |a|) then 1 else 0)
    decreases |a| - from
  {
    var ab := a + b;
    if from < |a| {
      assert ab[from] == a[from];
      EndsInTwo(a, b, from + 1);
    } else if SplitAt(ab, |a|) {
      EndsShift(a, b, |a| + 1);
    } else {
      EndsShift(a, b, |a|);
    }
  }

  // ---------------------------------------------------------------------------------------------------
  // Chunks
  // ---------------------------------------------------------------------------------------------------

  function Concat(chunks: seq<string>): string
    decreases |chunks|
  {
    if chunks == [] then "" else chunks[0] + Concat(chunks[1..])
  }

  /** What a run of appends hands on altogether, and leaves. */
  function AppendAll(residual: string, chunks: seq<string>): Drained
    decreases |chunks|
  {
    if chunks == [] then Drained([], residual)
    else
      var first := Drain(residual + chunks[0]);
      var later := AppendAll(first.residual, chunks[1..]);
      Drained(first.lines + later.lines, later.residual)
  }

  /** Some cut between the chunks falls inside a CR LF pair of the stream. */
  predicate CutsPair(done: string, chunks: seq<string>)
    decreases |chunks|
  {
    chunks != [] && (SplitAt(done + Concat(chunks), |done|) || CutsPair(done + chunks[0], chunks[1..]))
  }

  lemma {:induction false} EarlierSplit(a: string, b: string, c: string)
    ensures SplitAt(a + b, |a|) ==> SplitAt(a + (b + c), |a|)
  {
  }

  lemma {:induction false} AppendsDrainTheWhole(done: string, chunks: seq<string>)
    requires !CutsPair(done, chunks)
    ensures Lines(done, 0) + AppendAll(Residual(done), chunks).lines == Lines(done + Concat(chunks), 0)
    ensures AppendAll(Residual(done), chunks).residual == Residual(done + Concat(chunks))
    decreases |chunks|
  {
    if chunks == [] {
      assert done + Concat(chunks) == done;
    } else {
      var c, rest := chunks[0], chunks[1..];
      assert (done + c) + Concat(rest) == done + Concat(chunks);
      EarlierSplit(done, c, Concat(rest));
      DrainInTwo(done, c);
      AppendsDrainTheWhole(done + c, rest);
      var now := Drain(Residual(done) + c);
      Assoc(Lines(done, 0), now.lines, AppendAll(now.residual, rest).lines);
    }
  }

  function EndsByChunk(chunks: seq<string>): nat
    decreases |chunks|
  {
    if chunks == [] then 0 else Ends(chunks[0], 0) + EndsByChunk(chunks[1..])
  }

  lemma {:induction false} AppendsKeep(residual: string, chunks: seq<string>)
    requires Ends(residual, 0) == 0 && (residual != "" ==> residual[|residual| - 1] != '\r')
    ensures Kept(AppendAll(residual, chunks)) == |residual| + |Concat(chunks)| - EndsByChunk(chunks)
    decreases |chunks|
  {
    if chunks != [] {
      var text := residual + chunks[0];
      EndsInTwo(residual, chunks[0], 0);
      DrainKeeps(text);
      ResidualIsUnfinished(text);
      AppendsKeep(Residual(text), chunks[1..]);
      CharsAppend(Drain(text).lines, AppendAll(Residual(text), chunks[1..]).lines);
    }
  }

  lemma {:induction false} PairsAreCountedTwice(done: string, chunks: seq<string>)
    ensures Ends(done + Concat(chunks), 0) <= Ends(done, 0) + EndsByChunk(chunks)
    ensures CutsPair(done, chunks) ==> Ends(done + Concat(chunks), 0) < Ends(done, 0) + EndsByChunk(chunks)
    decreases |chunks|
  {
    if chunks == [] {
      assert done + Concat(chunks) == done;
    } else {
      var c, rest := chunks[0], chunks[1..];
      assert (done + c) + Concat(rest) == done + Concat(chunks);
      PairsAreCountedTwice(done + c, rest);
      EndsInTwo(done, c, 0);
      if SplitAt(done + Concat(chunks), |done|) && !SplitAt(done + c, |done|) {
        assert c == "";
        assert done + c == done;
        assert rest != [] && CutsPair(done + c, rest);
      }
    }
  }

  /**
   However a stream is cut into chunks, the lines handed on and the residual are those of the whole stream, if and
   only if no cut falls inside a CR LF pair.
   */
  lemma {:induction false} ChunkingIsHarmlessExactly(chunks: seq<string>)
    ensures AppendAll("", chunks) == Drain(Concat(chunks)) <==> !CutsPair("", chunks)
  {
    var text := Concat(chunks);
    assert "" + text == text;
    if CutsPair("", chunks) {
      PairsAreCountedTwice("", chunks);
      AppendsKeep("", chunks);
      DrainKeeps(text);
    } else {
      AppendsDrainTheWhole("", chunks);
      assert [] + AppendAll("", chunks).lines == AppendAll("", chunks).lines;
    }
  }

  // ---------------------------------------------------------------------------------------------------
  // The end of the stream
  // ---------------------------------------------------------------------------------------------------

  lemma {:induction false} SegmentsKeep(text: string)
    ensures Chars(Segments(text)) == |text| - Ends(text, 0)
  {
    DrainKeeps(text);
    var r := Residual(text);
    CharsAppend(Lines(text, 0), NonEmpty(r));
  }

  /**
   When the process ends, the last bytes are split on their own and the buffer is never read again. The lines the
   parser has seen are those of the whole stream if and only if the buffer was empty.
   */
  lemma {:induction false} NothingLostExactly(chunks: seq<string>, trailing: string)
    requires !CutsPair("", chunks) && !SplitAt(Concat(chunks) + trailing, |Concat(chunks)|)
    ensures var d := AppendAll("", chunks);
      d.lines + Segments(trailing) == Segments(Concat(chunks) + trailing) <==> d.residual == ""
  {
    ChunkingIsHarmlessExactly(chunks);
    NothingLostInTwo(Concat(chunks), trailing);
  }

  lemma {:induction false} NothingLostInTwo(text: string, trailing: string)
    requires !SplitAt(text + trailing, |text|)
    ensures Lines(text, 0) + Segments(trailing) == Segments(text + trailing) <==> Residual(text) == ""
  {
    var r := Residual(text);
    DrainInTwo(text, trailing);
    if r == "" {
      assert r + trailing == trailing;
    } else {
      RestIsMissed(text, trailing);
    }
  }

  /** The rest of the buffer is missing from the lines: fewer characters are seen. */
  lemma {:induction false} RestIsMissed(text: string, trailing: string)
    requires Residual(text) != "" && !SplitAt(text + trailing, |text|)
    ensures Lines(text, 0) + Segments(trailing) != Lines(text, 0) + Segments(Residual(text) + trailing)
  {
    var r := Residual(text);
    ResidualIsUnfinished(text);
    EndsInTwo(r, trailing, 0);
    SegmentsKeep(trailing);
    SegmentsKeep(r + trailing);
    CharsAppend(Lines(text, 0), Segments(trailing));
    CharsAppend(Lines(text, 0), Segments(r + trailing));
  }
}
