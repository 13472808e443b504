/**
 Names of worktree directories and branches, made from the names people give to workstreams.

 The name is lowered, everything but letters and digits becomes a hyphen, and pairs of hyphens are replaced by
 one until there are none. The replacement is a loop over the whole text, because one pass over a run of hyphens
 leaves half of them. Hyphens at both ends go before the text is cut to fifty characters, so the cut may leave one.
 What counts as a letter or a digit, and its lower case, is the system's business: an `Alphabet`.
 */
module Slugs {
  /** What the system knows of characters: their lower case, and which are letters or digits. */
  datatype Alphabet = Alphabet(lower: char -> char, alnum: char -> bool) {
    ghost predicate Sound() {
      && (forall c :: lower(lower(c)) == lower(c))
      && lower('-') == '-' && !alnum('-')
      && forall c <- DEFAULT :: lower(c) == c && alnum(c)
    }
  }

  const DEFAULT := "workstream"

  predicate HasPair(s: string, from: nat := 0)
    decreases |s| - from
  {
    from + 1 < |s| && ((s[from] == '-' && s[from + 1] == '-') || HasPair(s, from + 1))
  }

  /** `replacingOccurrences(of: "--", with: "-")`: one pass over pairs that do not overlap. */
  function Replaced(s: string): string {
    if |s| < 2 then s
    else if s[0] == '-' && s[1] == '-' then "-" + Replaced(s[2..])
    else [s[0]] + Replaced(s[1..])
  }

  /** Every run of hyphens as one hyphen. */
  function Collapsed(s: string): string {
    if |s| < 2 then s
    else if s[0] == '-' && s[1] == '-' then Collapsed(s[1..])
    else [s[0]] + Collapsed(s[1..])
  }

  function TrimLeft(s: string): string {
    if s != "" && s[0] == '-' then TrimLeft(s[1..]) else s
  }

  function TrimRight(s: string): string {
    if s != "" && s[|s| - 1] == '-' then TrimRight(s[..|s| - 1]) else s
  }

  function Mapped(a: Alphabet, name: string): (r: string)
    ensures |r| == |name|
  {
    seq(|name|, i requires 0 <= i < |name| => var c := a.lower(name[i]); if a.alnum(c) then c else '-')
  }

  function Cut(s: string): string {
    if s == "" then DEFAULT else if |s| > 50 then s[..50] else s
  }

  function Slug(a: Alphabet, name: string): string {
    Cut(TrimRight(TrimLeft(Collapsed(Mapped(a, name)))))
  }

  method Slugify(a: Alphabet, name: string) returns (slug: string)
    ensures slug == Slug(a, name)
  {
    slug := Mapped(a, name);
    while HasPair(slug)
      invariant Collapsed(slug) == Collapsed(Mapped(a, name))
      decreases |slug|
    {
      ReplacedIsShorter(slug);
      ReplacedCollapses(slug);
      slug := Replaced(slug);
    }
    NothingToCollapse(slug);
    slug := TrimRight(TrimLeft(slug));
    slug := Cut(slug);
  }

  // ---------------------------------------------------------------------------------------------------
  // The loop
  // ---------------------------------------------------------------------------------------------------

  lemma {:induction false} PairShift(s: string, k: nat, from: nat)
    requires k + from <= |s|
    ensures HasPair(s, k + from) <==> HasPair(s[k..], from)
    decreases |s| - k - from
  {
    if k + from + 1 < |s| {
      PairShift(s, k, from + 1);
    }
  }

  lemma {:induction false} ReplacedIsShorter(s: string)
    ensures |Replaced(s)| <= |s|
    ensures HasPair(s) ==> |Replaced(s)| < |s|
    decreases |s|
  {
    if 2 <= |s| {
      if s[0] == '-' && s[1] == '-' {
        ReplacedIsShorter(s[2..]);
      } else {
        ReplacedIsShorter(s[1..]);
        PairShift(s, 1, 0);
      }
    }
  }

  /** One pass changes nothing about the collapsed text. */
  lemma {:induction false} ReplacedCollapses(s: string)
    ensures Collapsed(Replaced(s)) == Collapsed(s)
    decreases |s|
  {
    if 2 <= |s| {
      if s[0] == '-' && s[1] == '-' {
        var rest := s[2..];
        ReplacedCollapses(rest);
        assert s[1..] == ['-'] + rest;
      } else {
        var rest := s[1..];
        ReplacedCollapses(rest);
      }
    }
  }

  lemma {:induction false} NothingToCollapse(s: string)
    requires !HasPair(s)
    ensures Collapsed(s) == s
    decreases |s|
  {
    if 2 <= |s| {
      PairShift(s, 1, 0);
      NothingToCollapse(s[1..]);
    }
  }

  // ---------------------------------------------------------------------------------------------------
  // What a slug looks like
  // ---------------------------------------------------------------------------------------------------

  /** Lower-case letters, digits and single hyphens, none in front. */
  ghost predicate Clean(a: Alphabet, s: string) {
    && (forall i :: 0 <= i < |s| ==> s[i] == '-' || (a.alnum(s[i]) && a.lower(s[i]) == s[i]))
    && NoPairs(s)
  }

  ghost predicate NoPairs(s: string) {
    forall i :: 0 <= i < |s| - 1 ==> !(s[i] == '-' && s[i + 1] == '-')
  }

  lemma {:induction false} NoPairsHere(s: string, from: nat)
    requires NoPairs(s)
    ensures !HasPair(s, from)
    decreases |s| - from
  {
    if from + 1 < |s| {
      NoPairsHere(s, from + 1);
    }
  }

  lemma {:induction false} CollapsedIsClean(a: Alphabet, s: string)
    requires forall i :: 0 <= i < |s| ==> s[i] == '-' || (a.alnum(s[i]) && a.lower(s[i]) == s[i])
    ensures Clean(a, Collapsed(s)) && (s != "" ==> Collapsed(s) != "" && Collapsed(s)[0] == s[0])
    decreases |s|
  {
    if 2 <= |s| {
      CollapsedIsClean(a, s[1..]);
    }
  }

  lemma {:induction false} TrimLeftIsSuffix(s: string)
    ensures exists k :: 0 <= k <= |s| && TrimLeft(s) == s[k..]
    ensures TrimLeft(s) != "" ==> TrimLeft(s)[0] != '-'
    decreases |s|
  {
    if s != "" && s[0] == '-' {
      TrimLeftIsSuffix(s[1..]);
      var k :| 0 <= k <= |s[1..]| && TrimLeft(s[1..]) == s[1..][k..];
      assert s[1..][k..] == s[k + 1..];
    } else {
      assert s[0..] == s;
    }
  }

  lemma {:induction false} TrimRightIsPrefix(s: string)
    ensures TrimRight(s) <= s
    ensures TrimRight(s) != "" ==> TrimRight(s)[|TrimRight(s)| - 1] != '-'
    decreases |s|
  {
    if s != "" && s[|s| - 1] == '-' {
      TrimRightIsPrefix(s[..|s| - 1]);
    }
  }

  ghost predicate IsSlug(a: Alphabet, s: string) {
    1 <= |s| <= 50 && Clean(a, s) && s[0] != '-'
  }

  lemma {:induction false} PartIsClean(a: Alphabet, s: string, i: nat, j: nat)
    requires Clean(a, s) && i <= j <= |s|
    ensures Clean(a, s[i..j])
  {
    var part := s[i..j];
    assert forall k :: 0 <= k < |part| ==> part[k] == s[i + k];
  }

  /** Every slug has 1 to 50 characters: lower-case letters, digits and single hyphens, no hyphen in front. */
  lemma {:induction false} SlugIsSlug(a: Alphabet, name: string)
    requires a.Sound()
    ensures IsSlug(a, Slug(a, name))
  {
    var mapped := Mapped(a, name);
    var collapsed := Collapsed(mapped);
    assert forall i :: 0 <= i < |mapped| ==>
      mapped[i] == '-' || (a.alnum(mapped[i]) && a.lower(mapped[i]) == mapped[i]);
    CollapsedIsClean(a, mapped);
    TrimmedIsClean(a, collapsed);
    var trimmed := TrimRight(TrimLeft(collapsed));
    if |trimmed| > 50 {
      PartIsClean(a, trimmed, 0, 50);
      assert trimmed[..50] == trimmed[0..50];
    }
  }

  lemma {:induction false} TrimmedIsClean(a: Alphabet, s: string)
    requires Clean(a, s)
    ensures var t := TrimRight(TrimLeft(s)); Clean(a, t) && (t != "" ==> t[0] != '-')
  {
    TrimLeftIsSuffix(s);
    var left := TrimLeft(s);
    var k :| 0 <= k <= |s| && left == s[k..];
    PartIsClean(a, s, k, |s|);
    assert s[k..|s|] == s[k..];
    TrimRightIsPrefix(left);
    var t := TrimRight(left);
    PartIsClean(a, left, 0, |t|);
    assert left[0..|t|] == t;
  }

  lemma {:induction false} NothingMapped(a: Alphabet, s: string)
    requires a.Sound() && Clean(a, s)
    ensures Mapped(a, s) == s
  {
  }

  /** What is left of a slug when its name is made into a slug again. */
  lemma {:induction false} SlugOfSlug(a: Alphabet, s: string)
    requires a.Sound() && IsSlug(a, s)
    ensures Slug(a, s) == if s[|s| - 1] == '-' then s[..|s| - 1] else s
  {
    NothingMapped(a, s);
    NoPairsHere(s, 0);
    NothingToCollapse(s);
    assert s[|s| - 1] == '-' ==> 1 < |s| && s[|s| - 2] != '-';
    assert TrimRight(s) == if s[|s| - 1] == '-' then s[..|s| - 1] else s;
  }

  /** Slugs are stable unless the cut at 50 characters left a hyphen at the end; the second time they always are. */
  lemma {:induction false} SlugIsStableExactly(a: Alphabet, name: string)
    requires a.Sound()
    ensures var s := Slug(a, name);
      && (Slug(a, s) == s <==> s[|s| - 1] != '-')
      && (s[|s| - 1] == '-' ==> |s| == 50 && Slug(a, s) == s[..49])
      && Slug(a, Slug(a, s)) == Slug(a, s)
  {
    var s := Slug(a, name);
    SlugIsSlug(a, name);
    SlugOfSlug(a, s);
    SlugIsSlug(a, s);
    SlugOfSlug(a, Slug(a, s));
    var left := TrimLeft(Collapsed(Mapped(a, name)));
    TrimRightIsPrefix(left);
  }
}
