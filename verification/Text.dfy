/**
 Strings as sequences of characters: decimal numerals, trimming, searching.
 */
module Text {
  function Numeral(n: nat): (r: string)
    ensures r != "" && forall c <- r :: '0' <= c <= '9'
  {
    (if n < 10 then "" else Numeral(n / 10)) + [('0' as int + n % 10) as char]
  }

  function Decimal(n: int): string {
    if n < 0 then "-" + Numeral(-n) else Numeral(n)
  }

  predicate IsSpace(c: char) {
    c == ' ' || c == '\t'
  }

  predicate IsSpaceOrNewline(c: char) {
    IsSpace(c) || c == '\n' || c == '\r'
  }

  function SkipWhile(s: string, p: char -> bool, from: nat): (i: nat)
    requires from <= |s|
    ensures from <= i <= |s| && (i < |s| ==> !p(s[i]))
    decreases |s| - from
  {
    if from < |s| && p(s[from]) then SkipWhile(s, p, from + 1) else from
  }

  function SkipBackWhile(s: string, p: char -> bool, end: nat): (i: nat)
    requires end <= |s|
    ensures i <= end && (0 < i ==> !p(s[i - 1]))
  {
    if 0 < end && p(s[end - 1]) then SkipBackWhile(s, p, end - 1) else end
  }

  function Trim(s: string, p: char -> bool): string {
    var i := SkipWhile(s, p, 0);
    s[i..SkipBackWhile(s[i..], p, |s| - i) + i]
  }

  function Lower(s: string): (r: string)
    ensures |r| == |s|
  {
    seq(|s|, i requires 0 <= i < |s| => if 'A' <= s[i] <= 'Z' then (s[i] as int + 32) as char else s[i])
  }

  function Prefix(s: string, n: nat): string {
    if n < |s| then s[..n] else s
  }

  // ---------------------------------------------------------------------------------------------------
  // What trimming keeps
  // ---------------------------------------------------------------------------------------------------

  lemma {:induction false} Skipped(s: string, p: char -> bool, from: nat)
    requires from <= |s|
    ensures forall k :: from <= k < SkipWhile(s, p, from) ==> p(s[k])
    decreases |s| - from
  {
    if from < |s| && p(s[from]) {
      Skipped(s, p, from + 1);
    }
  }

  lemma {:induction false} SkippedBack(s: string, p: char -> bool, end: nat)
    requires end <= |s|
    ensures forall k :: SkipBackWhile(s, p, end) <= k < end ==> p(s[k])
  {
    if 0 < end && p(s[end - 1]) {
      SkippedBack(s, p, end - 1);
    }
  }

  lemma {:induction false} SkipWhileIs(s: string, p: char -> bool, from: nat, stop: nat)
    requires from <= stop <= |s| && (forall k :: from <= k < stop ==> p(s[k])) && (stop < |s| ==> !p(s[stop]))
    ensures SkipWhile(s, p, from) == stop
    decreases |s| - from
  {
    if from < stop {
      SkipWhileIs(s, p, from + 1, stop);
    }
  }

  lemma {:induction false} SkipBackIs(s: string, p: char -> bool, end: nat, stop: nat)
    requires stop <= end <= |s| && (forall k :: stop <= k < end ==> p(s[k])) && (0 < stop ==> !p(s[stop - 1]))
    ensures SkipBackWhile(s, p, end) == stop
    decreases end
  {
    if stop < end {
      SkipBackIs(s, p, end - 1, stop);
    }
  }

  /** Nothing to trim at either end. */
  predicate Tight(t: string, p: char -> bool) {
    t != "" ==> !p(t[0]) && !p(t[|t| - 1])
  }

  predicate Only(s: string, p: char -> bool) {
    forall c <- s :: p(c)
  }

  /** Trimming takes off exactly what is to be trimmed, at both ends. */
  lemma {:induction false} TrimExactly(before: string, t: string, after: string, p: char -> bool)
    requires Only(before, p) && Only(after, p) && Tight(t, p)
    ensures Trim(before + t + after, p) == t
  {
    var s := before + t + after;
    if t == "" {
      assert forall k :: 0 <= k < |s| ==> s[k] in before || s[k] in after;
      SkipWhileIs(s, p, 0, |s|);
    } else {
      assert forall k :: 0 <= k < |before| ==> s[k] in before;
      SkipWhileIs(s, p, 0, |before|);
      var rest := s[|before|..];
      assert rest == t + after;
      assert forall k :: |t| <= k < |rest| ==> rest[k] in after;
      SkipBackIs(rest, p, |rest|, |t|);
    }
  }

  lemma {:induction false} TrimParts(s: string, p: char -> bool) returns (before: string, after: string)
    ensures s == before + Trim(s, p) + after && Only(before, p) && Only(after, p) && Tight(Trim(s, p), p)
  {
    var i := SkipWhile(s, p, 0);
    var rest := s[i..];
    var j := SkipBackWhile(rest, p, |rest|);
    Skipped(s, p, 0);
    SkippedBack(rest, p, |rest|);
    before, after := s[..i], rest[j..];
    CutInThree(s, i, j);
  }

  lemma {:induction false} CutInThree(s: string, i: nat, j: nat)
    requires i + j <= |s|
    ensures s == s[..i] + s[i..][..j] + s[i..][j..] && s[i..i + j] == s[i..][..j]
  {
  }

  function PowerOfTen(k: nat): (p: nat)
    ensures p > 0
  {
    if k == 0 then 1 else 10 * PowerOfTen(k - 1)
  }

  lemma {:induction false} NumeralFits(n: nat, k: nat)
    requires 0 < k && n < PowerOfTen(k)
    ensures |Numeral(n)| <= k
    decreases k
  {
    if n >= 10 {
      NumeralFits(n / 10, k - 1);
    }
  }
}
