/** Where lines end. */
module LineEnds {
  // A line ends at a line feed or a carriage return, unless the two stand together as a pair, which is one character to
  // Swift and ends nothing. The results of the buffer are stated here on the characters themselves.

  import opened LineBuffer

  /** The second character of a CR LF pair stands at `i`. */
  predicate PairAt(text: string, i: nat) {
    0 < i < |text| && text[i - 1] == '\r' && text[i] == '\n'
  }

  predicate NoPairs(text: string) {
    forall i :: 0 <= i < |text| ==> !PairAt(text, i)
  }

  predicate IsBreak(c: char) {
    c == '\n' || c == '\r'
  }

  /** A break that belongs to no pair. */
  predicate Breaks(text: string, i: nat) {
    i < |text| && IsBreak(text[i]) && !PairAt(text, i) && !PairAt(text, i + 1)
  }

  /** The place behind a break, or the beginning. */
  predicate LineBegins(text: string, from: nat, i: nat) {
    from <= i <= |text| && (i == from || Breaks(text, i - 1))
  }

  /** A line between two breaks, with at least one character and no break in it. */
  predicate IsLine(text: string, from: nat, s: Span) {
    && LineBegins(text, from, s.start) && s.start < s.end < |text| && Breaks(text, s.end)
    && forall k :: s.start <= k < s.end ==> !Breaks(text, k)
  }

  lemma {:induction false} NextBreak(text: string, from: nat)
    requires from <= |text|
    ensures var i := NextEnd(text, from);
      && (i < |text| ==> Breaks(text, i)) && forall k :: from <= k < i ==> !Breaks(text, k)
    decreases |text| - from
  {
    if from < |text| && !EndsLine(text, from) {
      NextBreak(text, from + 1);
    }
  }

  lemma {:induction false} SpansAreLines(text: string, from: nat, s: Span)
    requires from <= |text|
    ensures s in Spans(text, from) <==> IsLine(text, from, s)
    decreases |text| - from
  {
    var i := NextEnd(text, from);
    NextBreak(text, from);
    if i < |text| {
      SpansAreLines(text, i + 1, s);
      assert s in Spans(text, from) <==> s in Spans(text, i + 1) || (from < i && s == Span(from, i));
      if IsLine(text, from, s) && s.start == from {
        assert s.end == i;
      }
      assert IsLine(text, from, s) <==> IsLine(text, i + 1, s) || (from < i && s == Span(from, i));
    }
  }

  lemma {:induction false} SpansAscend(text: string, from: nat)
    requires from <= |text|
    ensures forall j, k :: 0 <= j < k < |Spans(text, from)| ==> Spans(text, from)[j].end < Spans(text, from)[k].start
    decreases |text| - from
  {
    var i := NextEnd(text, from);
    if i < |text| {
      var rest := Spans(text, i + 1);
      SpansAscend(text, i + 1);
      forall k | 0 <= k < |rest| ensures i + 1 <= rest[k].start
      {
        SpansAreLines(text, i + 1, rest[k]);
      }
    }
  }

  /**
   The lines handed on are exactly the stretches of one or more characters, none of which breaks, between a break or the
   beginning and the next break; in order.
   */
  lemma {:induction false} LinesExactly(text: string)
    ensures forall s: Span :: s in Spans(text, 0) <==> IsLine(text, 0, s)
    ensures forall j, k :: 0 <= j < k < |Spans(text, 0)| ==> Spans(text, 0)[j].end < Spans(text, 0)[k].start
    ensures Drain(text).lines == Pieces(text, Spans(text, 0))
    ensures forall k :: 0 <= k < |Spans(text, 0)| ==>
      var s := Spans(text, 0)[k]; s.start < s.end <= |text| && Drain(text).lines[k] == text[s.start..s.end]
  {
    forall s: Span ensures s in Spans(text, 0) <==> IsLine(text, 0, s)
    {
      SpansAreLines(text, 0, s);
    }
    SpansAscend(text, 0);
    assert forall k :: 0 <= k < |Spans(text, 0)| ==> IsLine(text, 0, Spans(text, 0)[k]);
  }

  /** Without pairs: the break characters are the line feed and the carriage return, and nothing else. */
  lemma {:induction false} LinesWithoutPairs(text: string, a: nat, b: nat)
    requires NoPairs(text)
    ensures Span(a, b) in Spans(text, 0) <==>
      && a < b < |text| && (text[b] == '\n' || text[b] == '\r')
      && (forall k :: a <= k < b ==> text[k] != '\n' && text[k] != '\r')
      && (a == 0 || text[a - 1] == '\n' || text[a - 1] == '\r')
  {
    SpansAreLines(text, 0, Span(a, b));
    assert forall k :: 0 <= k < |text| ==> (Breaks(text, k) <==> IsBreak(text[k]));
  }

  /** The two characters of a pair stay inside their line: neither ends one. */
  lemma {:induction false} PairsStayInside(text: string, i: nat, s: Span)
    requires PairAt(text, i) && s in Spans(text, 0)
    ensures s.end != i && s.end != i - 1 && s.start != i && s.start != i + 1
  {
    SpansAreLines(text, 0, s);
    assert !Breaks(text, i) && !Breaks(text, i - 1);
  }

  lemma {:induction false} RestBegins(text: string, from: nat)
    requires from <= |text|
    ensures var r := RestStart(text, from);
      LineBegins(text, from, r) && forall k :: r <= k < |text| ==> !Breaks(text, k)
    decreases |text| - from
  {
    var i := NextEnd(text, from);
    NextBreak(text, from);
    if i < |text| {
      RestBegins(text, i + 1);
    }
  }

  /** What is kept for later is what follows the last break. */
  lemma {:induction false} ResidualExactly(text: string, r: nat)
    requires r <= |text|
    ensures r == |text| - |Residual(text)| <==>
      (r == 0 || Breaks(text, r - 1)) && forall k :: r <= k < |text| ==> !Breaks(text, k)
  {
    RestBegins(text, 0);
    var start := RestStart(text, 0);
    if r < start {
      assert Breaks(text, start - 1);
    }
  }

  /** Without pairs: what follows the last line feed or carriage return. */
  lemma {:induction false} ResidualWithoutPairs(text: string)
    requires NoPairs(text)
    ensures var rest := Residual(text);
      && '\n' !in rest && '\r' !in rest && |rest| <= |text| && text[|text| - |rest|..] == rest
      && (|rest| < |text| ==> IsBreak(text[|text| - |rest| - 1]))
  {
    var rest := Residual(text);
    ResidualExactly(text, |text| - |rest|);
    assert forall k :: 0 <= k < |text| ==> (Breaks(text, k) <==> IsBreak(text[k]));
    assert text[|text| - |rest|..] == rest;
    assert forall k :: 0 <= k < |rest| ==> rest[k] == text[|text| - |rest| + k];
  }

  /** The last of the pieces a text is split into: what follows the last break, or else the last line. */
  lemma {:induction false} LastSegment(text: string)
    ensures Segments(text) == [] <==> forall k :: 0 <= k < |text| ==> Breaks(text, k)
    ensures Residual(text) != "" ==> Segments(text) != [] && Segments(text)[|Segments(text)| - 1] == Residual(text)
    ensures Residual(text) == "" ==> Segments(text) == Drain(text).lines
    ensures forall k :: 0 <= k < |Segments(text)| ==> Segments(text)[k] != ""
  {
    LinesAreNotEmpty(text);
    if Segments(text) == [] {
      NoSegments(text);
    } else {
      SomeSegment(text);
      assert NonEmpty(Residual(text)) == if Residual(text) == "" then [] else [Residual(text)];
      assert Drain(text).lines + [] == Drain(text).lines;
    }
  }

  lemma {:induction false} LinesAreNotEmpty(text: string)
    ensures forall k :: 0 <= k < |Drain(text).lines| ==> Drain(text).lines[k] != ""
  {
    LinesExactly(text);
    forall k | 0 <= k < |Drain(text).lines| ensures Drain(text).lines[k] != ""
    {
      assert Spans(text, 0)[k] in Spans(text, 0);
    }
  }

  /** Where a piece starts, nothing ends. */
  lemma {:induction false} SomeSegment(text: string)
    requires Segments(text) != []
    ensures exists k :: 0 <= k < |text| && !Breaks(text, k)
  {
    if Drain(text).lines != [] {
      var s := Spans(text, 0)[0];
      LinesExactly(text);
      assert s in Spans(text, 0) && IsLine(text, 0, s);
      assert !Breaks(text, s.start);
    } else {
      ResidualExactly(text, |text| - |Residual(text)|);
      assert !Breaks(text, |text| - |Residual(text)|);
    }
  }

  lemma {:induction false} NoSegments(text: string)
    requires Segments(text) == []
    ensures forall k :: 0 <= k < |text| ==> Breaks(text, k)
  {
    NoLinesFrom(text, 0);
    assert Residual(text) == "";
  }

  lemma {:induction false} NoLinesFrom(text: string, from: nat)
    requires from <= |text| && Spans(text, from) == [] && RestStart(text, from) == |text|
    ensures forall k :: from <= k < |text| ==> Breaks(text, k)
    decreases |text| - from
  {
    var i := NextEnd(text, from);
    NextBreak(text, from);
    if i < |text| {
      NoLinesFrom(text, i + 1);
    }
  }
}
