/**
 Replacing the part of a text between an open and a close marker.

 The first open marker is looked for from the start, the first close marker from there on; the text between them, both
 markers included, is replaced.
 */
module BlockRewrite {
  import opened Options

  /** `m` occurs in the text at position `i`. */
  predicate At(text: string, m: string, i: nat) {
    i + |m| <= |text| && text[i..i + |m|] == m
  }

  function Find(text: string, m: string, from: nat): (r: Option<nat>)
    ensures r.Some? ==> from <= r.value && At(text, m, r.value)
    decreases |text| - from
  {
    if |text| < from then None
    else if At(text, m, from) then Some(from)
    else Find(text, m, from + 1)
  }

  ghost predicate FirstAt(text: string, m: string, from: nat, i: nat) {
    from <= i && At(text, m, i) && forall j :: from <= j < i ==> !At(text, m, j)
  }

  lemma {:induction false} FindExactly(text: string, m: string, from: nat)
    ensures match Find(text, m, from)
            case Some(i) => FirstAt(text, m, from, i)
            case None => forall j :: from <= j ==> !At(text, m, j)
    decreases |text| - from
  {
    if from <= |text| && !At(text, m, from) {
      FindExactly(text, m, from + 1);
    }
  }

  lemma {:induction false} FirstIsFound(text: string, m: string, from: nat, i: nat)
    requires FirstAt(text, m, from, i)
    ensures Find(text, m, from) == Some(i)
  {
    FindExactly(text, m, from);
  }

  datatype Replaced = Replaced(text: string) | NoOpen | NoClose

  function Replace(text: string, open: string, close: string, block: string): Replaced {
    match Find(text, open, 0)
    case None => NoOpen
    case Some(start) =>
      match Find(text, close, start)
      case None => NoClose
      case Some(at) => Replaced(text[..start] + block + text[at + |close|..])
  }

  /** A text that starts with the open marker and holds the close marker once, at its end. */
  ghost predicate IsBlock(block: string, open: string, close: string) {
    open <= block && |close| <= |block| && FirstAt(block, close, 0, |block| - |close|)
  }

  /** A found block: `pre + block + post`, the markers where the rewrite looks for them. */
  ghost predicate Holds(text: string, open: string, close: string, pre: string, block: string, post: string) {
    text == pre + block + post && FirstAt(text, open, 0, |pre|) && IsBlock(block, open, close)
  }

  lemma {:induction false} AtInside(pre: string, s: string, post: string, m: string, i: nat)
    requires i + |m| <= |s|
    ensures At(pre + s + post, m, |pre| + i) <==> At(s, m, i)
  {
    assert (pre + s + post)[|pre| + i..|pre| + i + |m|] == s[i..i + |m|];
  }

  lemma {:induction false} CloseOfBlock(pre: string, block: string, post: string, open: string, close: string)
    requires IsBlock(block, open, close)
    ensures FirstAt(pre + block + post, close, |pre|, |pre| + |block| - |close|)
  {
    var text, at := pre + block + post, |pre| + |block| - |close|;
    AtInside(pre, block, post, close, |block| - |close|);
    forall j | |pre| <= j < at ensures !At(text, close, j)
    {
      AtInside(pre, block, post, close, j - |pre|);
    }
  }

  lemma {:induction false} ReplaceHeld(text: string, open: string, close: string, pre: string, block: string,
                                       post: string, later: string)
    requires Holds(text, open, close, pre, block, post)
    ensures Replace(text, open, close, later) == Replaced(pre + later + post)
  {
    FirstIsFound(text, open, 0, |pre|);
    CloseOfBlock(pre, block, post, open, close);
    FirstIsFound(text, close, |pre|, |pre| + |block| - |close|);
    assert text[..|pre|] == pre && text[|pre| + |block|..] == post;
  }

  /** The close marker is not found before the open marker is over. */
  ghost predicate Separate(open: string, close: string) {
    && open != "" && close != ""
    && forall rest: string, i: nat :: i < |open| ==> !At(open + rest, close, i)
  }

  lemma {:induction false} CloseAfterOpen(text: string, open: string, close: string, start: nat, at: nat)
    requires Separate(open, close) && At(text, open, start) && start <= at && At(text, close, at)
    ensures start + |open| <= at
  {
    if at < start + |open| {
      var rest := text[start + |open|..];
      assert text == text[..start] + (open + rest);
      AtInside(text[..start], open + rest, "", close, at - start);
    }
  }

  lemma {:induction false} ReplaceFinds(text: string, open: string, close: string, later: string)
                                        returns (pre: string, block: string, post: string)
    requires Separate(open, close) && Replace(text, open, close, later).Replaced?
    ensures Holds(text, open, close, pre, block, post)
  {
    FindExactly(text, open, 0);
    var start := Find(text, open, 0).value;
    FindExactly(text, close, start);
    var at := Find(text, close, start).value;
    CloseAfterOpen(text, open, close, start, at);
    pre, block, post := text[..start], text[start..at + |close|], text[at + |close|..];
    assert text == pre + block + post;
    BlockFromText(pre, block, post, open, close);
  }

  lemma {:induction false} BlockFromText(pre: string, block: string, post: string, open: string, close: string)
    requires |open| + |close| <= |block|
    requires At(pre + block + post, open, |pre|)
    requires FirstAt(pre + block + post, close, |pre|, |pre| + |block| - |close|)
    ensures IsBlock(block, open, close)
  {
    AtInside(pre, block, post, open, 0);
    AtInside(pre, block, post, close, |block| - |close|);
    forall j: nat | j < |block| - |close| ensures !At(block, close, j)
    {
      AtInside(pre, block, post, close, j);
    }
  }

  /** An occurrence before the block lies in what precedes it and the marker. */
  lemma {:induction false} NotEarlier(pre: string, block: string, post: string, open: string, j: nat)
    requires open <= block && j < |pre|
    ensures At(pre + block + post, open, j) <==> At(pre + open, open, j)
  {
    var rest := block[|open|..] + post;
    assert "" + (pre + open) + rest == pre + block + post;
    AtInside("", pre + open, rest, open, j);
  }

  /** Putting one block in place of another keeps the open marker where it is. */
  lemma {:induction false} HoldsAgain(text: string, open: string, close: string, pre: string, block: string,
                                      post: string, later: string)
    requires Holds(text, open, close, pre, block, post) && IsBlock(later, open, close)
    ensures Holds(pre + later + post, open, close, pre, later, post)
  {
    var t := pre + later + post;
    AtInside(pre, later, post, open, 0);
    forall j: nat | j < |pre| ensures !At(t, open, j)
    {
      NotEarlier(pre, later, post, open, j);
      NotEarlier(pre, block, post, open, j);
    }
  }

  /**
   Rewriting twice is rewriting once with the later block, and everything outside the markers stays as it was.
   */
  lemma {:induction false} LaterBlockWins(text: string, open: string, close: string, a: string, b: string)
    requires Separate(open, close) && IsBlock(a, open, close)
    requires Replace(text, open, close, a).Replaced?
    ensures Replace(Replace(text, open, close, a).text, open, close, b) == Replace(text, open, close, b)
  {
    var pre, block, post := ReplaceFinds(text, open, close, a);
    ReplaceHeld(text, open, close, pre, block, post, a);
    ReplaceHeld(text, open, close, pre, block, post, b);
    HoldsAgain(text, open, close, pre, block, post, a);
    ReplaceHeld(pre + a + post, open, close, pre, a, post, b);
  }

  ghost predicate Idempotent(open: string, close: string, block: string) {
    forall text :: Replace(text, open, close, block).Replaced? ==>
      Replace(Replace(text, open, close, block).text, open, close, block) == Replace(text, open, close, block)
  }

  /** Rewriting is idempotent on every text exactly for blocks that hold the close marker only at their end. */
  lemma {:induction false} IdempotentExactly(open: string, close: string, block: string)
    requires Separate(open, close)
    ensures Idempotent(open, close, block) <==> IsBlock(block, open, close)
  {
    if IsBlock(block, open, close) {
      forall text | Replace(text, open, close, block).Replaced?
        ensures Replace(Replace(text, open, close, block).text, open, close, block) == Replace(text, open, close, block)
      {
        LaterBlockWins(text, open, close, block, block);
      }
    } else {
      NotIdempotent(open, close, block);
    }
  }

  lemma {:induction false} NotIdempotent(open: string, close: string, block: string)
    requires Separate(open, close) && !IsBlock(block, open, close)
    ensures !Idempotent(open, close, block)
  {
    BarePage(open, close, block);
    if Replace(block, open, close, block) == Replaced(block) {
      var pre, found, post := ReplaceFinds(block, open, close, block);
      ReplaceHeld(block, open, close, pre, found, post, block);
      OnlyTheBlock(block, pre, found, post);
    }
  }

  lemma {:induction false} MarkersAreBlock(open: string, close: string)
    requires Separate(open, close)
    ensures IsBlock(open + close, open, close)
  {
    var page := open + close;
    assert At(page, open, 0) && At(page, close, |open|);
    assert forall i: nat :: i < |open| ==> !At(page, close, i);
  }

  /** A page of nothing but the two markers becomes the block itself. */
  lemma {:induction false} BarePage(open: string, close: string, block: string)
    requires Separate(open, close)
    ensures Replace(open + close, open, close, block) == Replaced(block)
  {
    var page := open + close;
    MarkersAreBlock(open, close);
    assert page == "" + page + "";
    assert At(page, open, 0);
    ReplaceHeld(page, open, close, "", page, "", block);
    assert "" + block + "" == block;
  }

  lemma {:induction false} OnlyTheBlock(text: string, pre: string, block: string, post: string)
    requires text == pre + block + post && text == pre + text + post
    ensures block == text
  {
    assert |text| == |pre| + |text| + |post|;
  }
}
