/**
 The lines of a session file, and what cutting its text into windows does to them.

 A window is the text between two places. Its usage lines are the newline-delimited pieces that the parser accepts,
 each with the offset it starts at.
 */
module SessionLines {
  // A session file is modelled as the sequence of its UTF-8 code units, one `char` each, so that offsets are
  // byte offsets. What the JSON parser and the UTF-8 decoder accept is left abstract in a `Codec`.

  /** One component of the text between newlines, with its byte offset in the file. */
  datatype Line = Line(offset: nat, text: string)

  /** `usage`: the line parses as an assistant line with a usage block.  `decodes`: the bytes are valid UTF-8. */
  datatype Codec = Codec(usage: string -> bool, decodes: string -> bool) {
    /** Facts about the real parser and decoder: the empty line has no usage, valid texts concatenate. */
    ghost predicate Sound() {
      && !usage("")
      && decodes("")
      && forall s, t :: decodes(s) && decodes(t) ==> decodes(s + t)
    }
  }

  // ---------------------------------------------------------------------------------------------------
  // Lines of a file
  // ---------------------------------------------------------------------------------------------------

  /** The first newline of `text` at or after `i`, or `end`. */
  function NextNewline(text: string, i: nat, end: nat): (k: nat)
    requires i <= end <= |text|
    ensures i <= k <= end
    ensures forall j :: i <= j < k ==> text[j] != '\n'
    ensures k < end ==> text[k] == '\n'
    decreases end - i
  {
    if i == end || text[i] == '\n' then i else NextNewline(text, i + 1, end)
  }

  /** The usage lines among the newline-separated components of bytes `from` to `end`, in order. */
  function UsageLines(c: Codec, text: string, from: nat, end: nat): (lines: seq<Line>)
    requires from <= end <= |text|
    decreases end - from
  {
    var k := NextNewline(text, from, end);
    var rest := if k == end then [] else UsageLines(c, text, k + 1, end);
    if c.usage(text[from..k]) then [Line(from, text[from..k])] + rest else rest
  }

  /** `cut` is a position where a line of `text` begins. */
  predicate LineStart(text: string, cut: nat) {
    cut <= |text| && (cut == 0 || text[cut - 1] == '\n')
  }

  // ---------------------------------------------------------------------------------------------------
  // Cutting a text into windows
  // ---------------------------------------------------------------------------------------------------

  lemma {:induction false} AppendAssoc<T>(a: seq<T>, b: seq<T>, d: seq<T>)
    ensures a + (b + d) == (a + b) + d
  {
  }

  lemma {:induction false} NextNewlineIs(text: string, i: nat, end: nat, k: nat)
    requires i <= k <= end <= |text|
    requires forall j :: i <= j < k ==> text[j] != '\n'
    requires k < end ==> text[k] == '\n'
    ensures NextNewline(text, i, end) == k
  {
    var f := NextNewline(text, i, end);
    if f < k {
      assert false;
    } else if k < f {
      assert false;
    }
  }

  /** The line at `from`, if it carries usage. */
  function HereLine(c: Codec, text: string, from: nat, k: nat): seq<Line>
    requires from <= k <= |text|
  {
    if c.usage(text[from..k]) then [Line(from, text[from..k])] else []
  }

  lemma {:induction false} UsageLinesStepTo(c: Codec, text: string, from: nat, end: nat, k: nat)
    requires from <= k < end <= |text| && k == NextNewline(text, from, end)
    ensures UsageLines(c, text, from, end) == HereLine(c, text, from, k) + UsageLines(c, text, k + 1, end)
  {
  }

  /** A window that holds a single unfinished line. */
  lemma {:induction false} UsageLinesLast(c: Codec, text: string, from: nat, end: nat)
    requires from <= end <= |text| && NextNewline(text, from, end) == end
    ensures UsageLines(c, text, from, end) == HereLine(c, text, from, end)
  {
  }

  /** Reading up to a line start and then on finds the same usage lines as one read. */
  lemma {:induction false} UsageLinesSplit(c: Codec, text: string, from: nat, cut: nat, end: nat)
    requires !c.usage("") && from <= cut <= end <= |text| && LineStart(text, cut)
    ensures UsageLines(c, text, from, end) == UsageLines(c, text, from, cut) + UsageLines(c, text, cut, end)
    decreases cut - from
  {
    if from == cut {
      assert text[from..from] == [];
    } else {
      var k := NextNewline(text, from, end);
      assert k < cut;
      NextNewlineIs(text, from, cut, k);
      UsageLinesSplit(c, text, k + 1, cut, end);
      UsageLinesStepTo(c, text, from, cut, k);
      UsageLinesStepTo(c, text, from, end, k);
      var here := HereLine(c, text, from, k);
      var a, b := UsageLines(c, text, k + 1, cut), UsageLines(c, text, cut, end);
      AppendAssoc(here, a, b);
    }
  }

  /** The usage lines of a window depend on nothing after the window. */
  lemma {:induction false} UsageLinesFrame(c: Codec, text: string, longer: string, from: nat, end: nat)
    requires from <= end <= |text| && end <= |longer| && text[..end] == longer[..end]
    ensures UsageLines(c, text, from, end) == UsageLines(c, longer, from, end)
    decreases end - from
  {
    var k := NextNewline(text, from, end);
    SameNewline(text, longer, from, end);
    if k < end {
      UsageLinesFrame(c, text, longer, k + 1, end);
      UsageLinesStepTo(c, text, from, end, k);
      UsageLinesStepTo(c, longer, from, end, k);
    } else {
      UsageLinesLast(c, text, from, end);
      UsageLinesLast(c, longer, from, end);
    }
  }

  lemma {:induction false} SameNewline(text: string, longer: string, from: nat, end: nat)
    requires from <= end <= |text| && end <= |longer| && text[..end] == longer[..end]
    ensures var k := NextNewline(text, from, end);
      k == NextNewline(longer, from, end) && text[from..k] == longer[from..k]
  {
    var k := NextNewline(text, from, end);
    assert text[from..k] == text[..end][from..k] == longer[from..k];
    assert forall j :: 0 <= j < end ==> text[j] == text[..end][j] == longer[j];
    NextNewlineIs(longer, from, end, k);
  }

  /** `l` is a usage line of the window: it starts at the window's start or after a newline, and runs to the next. */
  predicate IsUsageLine(c: Codec, text: string, from: nat, end: nat, l: Line)
    requires from <= end <= |text|
  {
    && from <= l.offset <= end
    && (l.offset == from || text[l.offset - 1] == '\n')
    && l.text == text[l.offset..NextNewline(text, l.offset, end)]
    && c.usage(l.text)
  }

  lemma {:induction false} UsageLinesExactly(c: Codec, text: string, from: nat, end: nat, l: Line)
    requires from <= end <= |text|
    ensures l in UsageLines(c, text, from, end) <==> IsUsageLine(c, text, from, end, l)
    decreases end - from
  {
    var k := NextNewline(text, from, end);
    FirstOrLater(c, text, from, end, l);
    if k < end {
      UsageLinesExactly(c, text, k + 1, end, l);
      UsageLinesStepTo(c, text, from, end, k);
    } else {
      UsageLinesLast(c, text, from, end);
    }
  }

  /** A usage line of a window is its first line or one of a later line. */
  lemma {:induction false} FirstOrLater(c: Codec, text: string, from: nat, end: nat, l: Line)
    requires from <= end <= |text|
    ensures var k := NextNewline(text, from, end);
      IsUsageLine(c, text, from, end, l)
      <==> l in HereLine(c, text, from, k) || (k < end && IsUsageLine(c, text, k + 1, end, l))
  {
    var k := NextNewline(text, from, end);
    if IsUsageLine(c, text, from, end, l) && l.offset > from {
      assert text[l.offset - 1] == '\n';
      assert k <= l.offset - 1;
    }
  }

  /** Lines in order, each starting within the window. */
  ghost predicate Ascending(lines: seq<Line>, from: nat, end: nat) {
    && (forall k :: 0 <= k < |lines| ==> from <= lines[k].offset < end)
    && (forall j, k :: 0 <= j < k < |lines| ==> lines[j].offset < lines[k].offset)
  }

  lemma {:induction false} UsageLinesAscend(c: Codec, text: string, from: nat, end: nat)
    requires !c.usage("") && from <= end <= |text|
    ensures Ascending(UsageLines(c, text, from, end), from, end)
    decreases end - from
  {
    var k := NextNewline(text, from, end);
    assert text[from..from] == "";
    if k < end {
      UsageLinesAscend(c, text, k + 1, end);
      UsageLinesStepTo(c, text, from, end, k);
      AscendingCons(HereLine(c, text, from, k), UsageLines(c, text, k + 1, end), from, k + 1, end);
    } else {
      UsageLinesLast(c, text, from, end);
    }
  }

  lemma {:induction false} AscendingCons(here: seq<Line>, rest: seq<Line>, from: nat, later: nat, end: nat)
    requires from < later <= end && (here == [] || (|here| == 1 && here[0].offset == from))
    requires Ascending(rest, later, end)
    ensures Ascending(here + rest, from, end)
  {
  }

  /** The start of the line that byte `cut` lies in. */
  function LineStartBefore(text: string, cut: nat): (start: nat)
    requires cut <= |text|
    ensures start <= cut && LineStart(text, start)
    ensures forall i :: start <= i < cut ==> text[i] != '\n'
  {
    if LineStart(text, cut) then cut else LineStartBefore(text, cut - 1)
  }

  /** `cut` falls strictly inside a line: after its first byte and not at its end. */
  predicate InsideLine(text: string, cut: nat)
    requires cut <= |text|
  {
    !LineStart(text, cut) && cut < |text| && text[cut] != '\n'
  }

  lemma {:induction false} CutBeforeNewline(c: Codec, text: string, cut: nat)
    requires !c.usage("") && cut < |text| && text[cut] == '\n'
    ensures UsageLines(c, text, 0, |text|) == UsageLines(c, text, 0, cut) + UsageLines(c, text, cut, |text|)
  {
    var start := LineStartBefore(text, cut);
    UsageLinesSplit(c, text, 0, start, cut);
    UsageLinesSplit(c, text, 0, start, |text|);
    OneLineCut(c, text, start, cut);
    AppendAssoc(UsageLines(c, text, 0, start), UsageLines(c, text, start, cut), UsageLines(c, text, cut, |text|));
  }

  /** A cut before the newline that ends the line at `start`. */
  lemma {:induction false} OneLineCut(c: Codec, text: string, start: nat, cut: nat)
    requires !c.usage("") && start <= cut < |text| && text[cut] == '\n'
    requires forall i :: start <= i < cut ==> text[i] != '\n'
    ensures UsageLines(c, text, start, |text|) == UsageLines(c, text, start, cut) + UsageLines(c, text, cut, |text|)
  {
    NextNewlineIs(text, start, |text|, cut);
    UsageLinesStepTo(c, text, start, |text|, cut);
    NextNewlineIs(text, start, cut, cut);
    UsageLinesLast(c, text, start, cut);
    NextNewlineIs(text, cut, |text|, cut);
    UsageLinesStepTo(c, text, cut, |text|, cut);
    assert text[cut..cut] == "";
  }

  lemma {:induction false} CutInsideLine(text: string, cut: nat)
    requires cut <= |text| && InsideLine(text, cut)
    ensures exists c: Codec ::
      !c.usage("") && UsageLines(c, text, 0, |text|) != UsageLines(c, text, 0, cut) + UsageLines(c, text, cut, |text|)
  {
    var start := LineStartBefore(text, cut);
    var fragment := text[start..cut];
    var c := Codec(t => t == fragment, _ => true);
    var l := Line(start, fragment);
    NextNewlineIs(text, start, cut, cut);
    UsageLinesExactly(c, text, 0, cut, l);
    assert |text[start..NextNewline(text, start, |text|)]| > |fragment|;
    UsageLinesExactly(c, text, 0, |text|, l);
  }

  /**
   Two reads split at `cut` see the usage lines of one read, whatever the parser accepts, if and only if the
   cut does not fall strictly inside a line. The tail checks no such thing: it stores the end of file as the
   next cut even when the last line is still being written.
   */
  lemma {:induction false} CutHarmlessExactly(text: string, cut: nat)
    requires cut <= |text|
    ensures !InsideLine(text, cut) <==>
      forall c: Codec | !c.usage("") ::
        UsageLines(c, text, 0, |text|) == UsageLines(c, text, 0, cut) + UsageLines(c, text, cut, |text|)
  {
    if InsideLine(text, cut) {
      CutInsideLine(text, cut);
    } else {
      forall c: Codec | !c.usage("")
        ensures UsageLines(c, text, 0, |text|) == UsageLines(c, text, 0, cut) + UsageLines(c, text, cut, |text|)
      {
        if cut == |text| {
          assert text[cut..cut] == [];
        } else if text[cut] == '\n' {
          CutBeforeNewline(c, text, cut);
        } else {
          UsageLinesSplit(c, text, 0, cut, |text|);
        }
      }
    }
  }
}
