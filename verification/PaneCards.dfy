/** The canonical panes. */
module PaneCards {
  // They are the card anchors of the index page, each found by a regular expression. The expression matches at a place
  // in one way at most, so that a scan without going back finds what it finds.

  import opened Options
  import opened BlockRewrite

  const CARD_OPEN := "<a class=\"card\" href=\""
  const PANES := "panes/"
  const CARD_MIDDLE := ".html\"><h4>"
  const CARD_END := "</h4>"

  datatype Pane = Pane(slug: string, title: string)

  predicate IsSlugChar(c: char) {
    'a' <= c <= 'z' || '0' <= c <= '9' || c == '-'
  }

  predicate NoneIs(text: string, c: char, from: nat, end: nat) {
    from <= end <= |text| && forall k :: from <= k < end ==> text[k] != c
  }

  predicate AllSlug(text: string, from: nat, end: nat) {
    from <= end <= |text| && forall k :: from <= k < end ==> IsSlugChar(text[k])
  }

  /** One way of matching the expression: the spans of the slug and of the title. */
  datatype Match = Match(slugFrom: nat, slugTo: nat, titleFrom: nat, titleTo: nat) {
    function End(): nat {
      titleTo + |CARD_END|
    }
  }

  /** The expression, atom by atom, from position `i`. */
  ghost predicate IsMatch(text: string, i: nat, m: Match) {
    && At(text, CARD_OPEN, i)
    && i + |CARD_OPEN| + |PANES| <= m.slugFrom < m.slugTo < m.titleFrom < m.titleTo
    && m.titleFrom == m.slugTo + |CARD_MIDDLE|
    && NoneIs(text, '"', i + |CARD_OPEN|, m.slugFrom - |PANES|)
    && At(text, PANES, m.slugFrom - |PANES|)
    && AllSlug(text, m.slugFrom, m.slugTo)
    && At(text, CARD_MIDDLE, m.slugTo)
    && NoneIs(text, '<', m.titleFrom, m.titleTo)
    && At(text, CARD_END, m.titleTo)
  }

  function NextOf(text: string, c: char, from: nat): (r: nat)
    requires from <= |text|
    ensures from <= r <= |text| && (r < |text| ==> text[r] == c)
    decreases |text| - from
  {
    if from == |text| || text[from] == c then from else NextOf(text, c, from + 1)
  }

  lemma {:induction false} NextOfIsFirst(text: string, c: char, from: nat)
    requires from <= |text|
    ensures NoneIs(text, c, from, NextOf(text, c, from))
    decreases |text| - from
  {
    if from < |text| && text[from] != c {
      NextOfIsFirst(text, c, from + 1);
    }
  }

  function SlugStart(text: string, from: nat, end: nat): (r: nat)
    requires from <= end <= |text|
    ensures from <= r <= end && (from < r ==> !IsSlugChar(text[r - 1]))
    decreases end
  {
    if from < end && IsSlugChar(text[end - 1]) then SlugStart(text, from, end - 1) else end
  }

  lemma {:induction false} SlugStartIsSlug(text: string, from: nat, end: nat)
    requires from <= end <= |text|
    ensures AllSlug(text, SlugStart(text, from, end), end)
    decreases end
  {
    if from < end && IsSlugChar(text[end - 1]) {
      SlugStartIsSlug(text, from, end - 1);
    }
  }

  /** Deterministic matching: the quote that closes the link fixes everything before it. */
  function Scan(text: string, i: nat): (r: Option<Match>)
    ensures r.Some? ==>
      i < r.value.slugFrom < r.value.slugTo < r.value.titleFrom < r.value.titleTo && r.value.End() <= |text|
  {
    if !At(text, CARD_OPEN, i) then None
    else
      var href := i + |CARD_OPEN|;
      var quote := NextOf(text, '"', href);
      if quote < href + |PANES| + |".html"| then None
      else
        var slugTo := quote - |".html"|;
        var slugFrom := SlugStart(text, href, slugTo);
        var titleFrom := slugTo + |CARD_MIDDLE|;
        if !At(text, CARD_MIDDLE, slugTo) || slugFrom == slugTo || slugFrom < href + |PANES|
           || !At(text, PANES, slugFrom - |PANES|) then None
        else
          var titleTo := NextOf(text, '<', titleFrom);
          if titleTo == titleFrom || !At(text, CARD_END, titleTo) then None
          else Some(Match(slugFrom, slugTo, titleFrom, titleTo))
  }

  lemma {:induction false} CharAt(text: string, m: string, i: nat, k: nat)
    requires At(text, m, i) && k < |m|
    ensures text[i + k] == m[k]
  {
    assert text[i..i + |m|][k] == text[i + k];
  }

  lemma {:induction false} ScanMatches(text: string, i: nat)
    requires Scan(text, i).Some?
    ensures IsMatch(text, i, Scan(text, i).value)
  {
    var m := Scan(text, i).value;
    var href := i + |CARD_OPEN|;
    NextOfIsFirst(text, '"', href);
    SlugStartIsSlug(text, href, m.slugTo);
    NextOfIsFirst(text, '<', m.titleFrom);
  }

  lemma {:induction false} NextIs(text: string, c: char, from: nat, r: nat)
    requires NoneIs(text, c, from, r) && r < |text| && text[r] == c
    ensures NextOf(text, c, from) == r
    decreases r - from
  {
    if from < r {
      NextIs(text, c, from + 1, r);
    }
  }

  lemma {:induction false} SlugStartIs(text: string, from: nat, r: nat, end: nat)
    requires from < r && AllSlug(text, r, end) && !IsSlugChar(text[r - 1])
    ensures SlugStart(text, from, end) == r
    decreases end
  {
    if r < end {
      SlugStartIs(text, from, r, end - 1);
    }
  }

  /** No quote lies between the opening of the link and the one in the middle part. */
  lemma {:induction false} QuoteOf(text: string, i: nat, m: Match)
    requires IsMatch(text, i, m)
    ensures NextOf(text, '"', i + |CARD_OPEN|) == m.slugTo + |".html"|
  {
    var href, quote := i + |CARD_OPEN|, m.slugTo + |".html"|;
    CharAt(text, CARD_MIDDLE, m.slugTo, |".html"|);
    forall k | href <= k < quote ensures text[k] != '"'
    {
      if m.slugFrom - |PANES| <= k < m.slugFrom {
        CharAt(text, PANES, m.slugFrom - |PANES|, k - (m.slugFrom - |PANES|));
        assert text[k] in PANES;
      } else if m.slugTo <= k {
        CharAt(text, CARD_MIDDLE, m.slugTo, k - m.slugTo);
        assert text[k] == ".html"[k - m.slugTo];
      }
    }
    NextIs(text, '"', href, quote);
  }

  lemma {:induction false} SlugOf(text: string, i: nat, m: Match)
    requires IsMatch(text, i, m)
    ensures SlugStart(text, i + |CARD_OPEN|, m.slugTo) == m.slugFrom
  {
    CharAt(text, PANES, m.slugFrom - |PANES|, 5);
    SlugStartIs(text, i + |CARD_OPEN|, m.slugFrom, m.slugTo);
  }

  lemma {:induction false} TitleOf(text: string, i: nat, m: Match)
    requires IsMatch(text, i, m)
    ensures m.titleFrom <= |text| && NextOf(text, '<', m.titleFrom) == m.titleTo
  {
    CharAt(text, CARD_END, m.titleTo, 0);
    NextIs(text, '<', m.titleFrom, m.titleTo);
  }

  lemma {:induction false} MatchIsScanned(text: string, i: nat, m: Match)
    requires IsMatch(text, i, m)
    ensures Scan(text, i) == Some(m)
  {
    QuoteOf(text, i, m);
    SlugOf(text, i, m);
    TitleOf(text, i, m);
  }

  /** The scan finds a card exactly where the expression matches, and the expression matches in one way only. */
  lemma {:induction false} CardIsFoundExactly(text: string, i: nat, m: Match)
    ensures IsMatch(text, i, m) <==> Scan(text, i) == Some(m)
  {
    if IsMatch(text, i, m) {
      MatchIsScanned(text, i, m);
    }
    if Scan(text, i) == Some(m) {
      ScanMatches(text, i);
    }
  }

  /** `finditer`: leftmost matches, each search going on behind the match before. */
  function Panes(text: string, from: nat := 0): seq<Pane>
    decreases |text| - from
  {
    if |text| <= from then []
    else match Scan(text, from)
      case None => Panes(text, from + 1)
      case Some(m) =>
        [Pane(text[m.slugFrom..m.slugTo], text[m.titleFrom..m.titleTo])] + Panes(text, m.End())
  }

  /** Slugs are made of small letters, digits and hyphens; titles hold no tag. */
  ghost predicate ProperPane(p: Pane) {
    p.slug != "" && p.title != "" && (forall c <- p.slug :: IsSlugChar(c)) && '<' !in p.title
  }

  lemma {:induction false} PanesAreProper(text: string, from: nat)
    ensures forall p <- Panes(text, from) :: ProperPane(p)
    decreases |text| - from
  {
    if from < |text| {
      match Scan(text, from)
      case None => PanesAreProper(text, from + 1);
      case Some(m) =>
        ScanMatches(text, from);
        PanesAreProper(text, m.End());
    }
  }

  // ---------------------------------------------------------------------------------------------------
  // All the cards
  // ---------------------------------------------------------------------------------------------------

  /** Nothing matches from one place up to another. */
  ghost predicate NoneMatches(text: string, from: nat, end: nat) {
    forall i: nat, m: Match :: from <= i < end ==> !IsMatch(text, i, m)
  }

  /** The first place at or behind `from` where the expression matches. */
  ghost predicate IsNextMatch(text: string, from: nat, place: nat, m: Match) {
    from <= place && IsMatch(text, place, m) && NoneMatches(text, from, place)
  }

  /** Successive leftmost matches: each search goes on behind the match before, and nothing matches behind the last. */
  ghost predicate AreAllMatches(text: string, from: nat, places: seq<nat>, ms: seq<Match>)
    decreases |ms|
  {
    && |places| == |ms|
    && if ms == [] then NoneMatches(text, from, |text|)
       else IsNextMatch(text, from, places[0], ms[0]) && AreAllMatches(text, ms[0].End(), places[1..], ms[1..])
  }

  /** The slug and the title of a match. */
  ghost predicate Shows(text: string, p: Pane, m: Match) {
    && m.slugFrom <= m.slugTo <= |text| && p.slug == text[m.slugFrom..m.slugTo]
    && m.titleFrom <= m.titleTo <= |text| && p.title == text[m.titleFrom..m.titleTo]
  }

  /** One pane for each match. */
  ghost predicate ShowAll(text: string, panes: seq<Pane>, ms: seq<Match>) {
    |panes| == |ms| && forall k :: 0 <= k < |ms| ==> Shows(text, panes[k], ms[k])
  }

  lemma {:induction false} ShowOneMore(text: string, p: Pane, panes: seq<Pane>, m: Match, ms: seq<Match>)
    requires ShowAll(text, panes, ms) && Shows(text, p, m)
    ensures ShowAll(text, [p] + panes, [m] + ms)
  {
  }

  lemma {:induction false} OneBefore(text: string, from: nat, m: Match, places: seq<nat>, ms: seq<Match>)
    requires AreAllMatches(text, m.End(), places, ms) && IsNextMatch(text, from, from, m)
    ensures AreAllMatches(text, from, [from] + places, [m] + ms)
  {
    assert ([from] + places)[1..] == places && ([m] + ms)[1..] == ms;
  }

  lemma {:induction false} MatchHere(text: string, i: nat)
    ensures match Scan(text, i)
            case None => NoneMatches(text, i, i + 1)
            case Some(m) => IsNextMatch(text, i, i, m)
  {
    forall m ensures IsMatch(text, i, m) <==> Scan(text, i) == Some(m)
    {
      CardIsFoundExactly(text, i, m);
    }
  }

  lemma {:induction false} NoneHere(text: string, from: nat, places: seq<nat>, ms: seq<Match>)
    requires AreAllMatches(text, from + 1, places, ms) && NoneMatches(text, from, from + 1)
    ensures AreAllMatches(text, from, places, ms)
  {
    if ms != [] {
      NoneUpTo(text, from, places[0]);
    } else {
      NoneUpTo(text, from, |text|);
    }
  }

  lemma {:induction false} NoneUpTo(text: string, from: nat, end: nat)
    requires NoneMatches(text, from, from + 1) && NoneMatches(text, from + 1, end)
    ensures NoneMatches(text, from, end)
  {
  }

  /** The panes are the slug and the title of each match, in order. */
  lemma {:induction false} PanesAreTheMatches(text: string, from: nat) returns (places: seq<nat>, ms: seq<Match>)
    ensures AreAllMatches(text, from, places, ms) && ShowAll(text, Panes(text, from), ms)
    decreases |text| - from
  {
    places, ms := [], [];
    if from < |text| {
      MatchHere(text, from);
      match Scan(text, from)
      case None =>
        places, ms := PanesAreTheMatches(text, from + 1);
        NoneHere(text, from, places, ms);
      case Some(m) =>
        var otherPlaces, others := PanesAreTheMatches(text, m.End());
        places, ms := [from] + otherPlaces, [m] + others;
        OneBefore(text, from, m, otherPlaces, others);
        ShowFirst(text, from, m, others);
    }
  }

  lemma {:induction false} ShowFirst(text: string, from: nat, m: Match, ms: seq<Match>)
    requires from < |text| && Scan(text, from) == Some(m) && ShowAll(text, Panes(text, m.End()), ms)
    ensures ShowAll(text, Panes(text, from), [m] + ms)
  {
    ShowOneMore(text, Pane(text[m.slugFrom..m.slugTo], text[m.titleFrom..m.titleTo]), Panes(text, m.End()), m, ms);
  }

  // ---------------------------------------------------------------------------------------------------
  // What a card looks like
  // ---------------------------------------------------------------------------------------------------

  /** The characters of a card: the address ends in the slug, and the title follows in a heading of its own. */
  ghost predicate Spells(card: string, address: string, slug: string, title: string) {
    && card == "<a class=\"card\" href=\"" + address + "panes/" + slug + ".html\"><h4>" + title + "</h4>"
    && '"' !in address && slug != "" && title != "" && '<' !in title
    && forall c <- slug :: 'a' <= c <= 'z' || '0' <= c <= '9' || c == '-'
  }

  /** Where the parts of a card that starts at `i` lie. */
  predicate LiesAt(i: nat, address: string, slug: string, title: string, m: Match) {
    && m.slugFrom == i + 22 + |address| + 6 && m.slugTo == m.slugFrom + |slug|
    && m.titleFrom == m.slugTo + 11 && m.titleTo == m.titleFrom + |title|
  }

  lemma {:induction false} SixParts(text: string, i: nat, a: string, b: string, c: string, d: string, e: string,
                                    f: string, g: string)
    requires i + |a + b + c + d + e + f + g| <= |text|
    ensures text[i..i + |a + b + c + d + e + f + g|] == a + b + c + d + e + f + g
      <==> (var p1 := i + |a|; var p2 := p1 + |b|; var p3 := p2 + |c|; var p4 := p3 + |d|; var p5 := p4 + |e|;
            var p6 := p5 + |f|;
            && text[i..p1] == a && text[p1..p2] == b && text[p2..p3] == c && text[p3..p4] == d && text[p4..p5] == e
            && text[p5..p6] == f && text[p6..p6 + |g|] == g)
  {
    TwoParts(text, i, a + b + c + d + e + f, g);
    TwoParts(text, i, a + b + c + d + e, f);
    TwoParts(text, i, a + b + c + d, e);
    TwoParts(text, i, a + b + c, d);
    TwoParts(text, i, a + b, c);
    TwoParts(text, i, a, b);
  }

  lemma {:induction false} TwoParts(text: string, i: nat, a: string, b: string)
    requires i + |a| + |b| <= |text|
    ensures text[i..i + |a| + |b|] == a + b <==> text[i..i + |a|] == a && text[i + |a|..i + |a| + |b|] == b
  {
    var whole := text[i..i + |a| + |b|];
    assert whole[..|a|] == text[i..i + |a|] && whole[|a|..] == text[i + |a|..i + |a| + |b|];
    assert (a + b)[..|a|] == a && (a + b)[|a|..] == b;
    assert whole == whole[..|a|] + whole[|a|..];
  }

  lemma {:induction false} NoneIn(text: string, from: nat, part: string, c: char)
    requires from + |part| <= |text| && text[from..from + |part|] == part && c !in part
    ensures NoneIs(text, c, from, from + |part|)
  {
    forall k | from <= k < from + |part| ensures text[k] != c
    {
      assert text[k] == part[k - from] && part[k - from] in part;
    }
  }

  lemma {:induction false} SlugIn(text: string, from: nat, part: string)
    requires from + |part| <= |text| && text[from..from + |part|] == part
    requires forall c <- part :: 'a' <= c <= 'z' || '0' <= c <= '9' || c == '-'
    ensures AllSlug(text, from, from + |part|)
  {
    forall k | from <= k < from + |part| ensures IsSlugChar(text[k])
    {
      assert text[k] == part[k - from] && part[k - from] in part;
    }
  }

  /** The expression matches exactly where a card is spelled. */
  lemma {:induction false} CardsAreMatched(text: string, i: nat, card: string, address: string, slug: string,
                                           title: string, m: Match)
    requires Spells(card, address, slug, title) && At(text, card, i) && LiesAt(i, address, slug, title, m)
    ensures IsMatch(text, i, m) && text[m.slugFrom..m.slugTo] == slug && text[m.titleFrom..m.titleTo] == title
    ensures m.End() == i + |card|
  {
    PartsOfCard(text, i, card, address, slug, title, m);
    NoneIn(text, i + 22, address, '"');
    SlugIn(text, m.slugFrom, slug);
    NoneIn(text, m.titleFrom, title, '<');
  }

  lemma {:induction false} PartsOfCard(text: string, i: nat, card: string, address: string, slug: string,
                                       title: string, m: Match)
    requires Spells(card, address, slug, title) && At(text, card, i) && LiesAt(i, address, slug, title, m)
    ensures m.titleTo + 5 <= |text| && |card| == m.titleTo + 5 - i
    ensures At(text, CARD_OPEN, i) && text[i + 22..i + 22 + |address|] == address
    ensures At(text, PANES, m.slugFrom - 6) && text[m.slugFrom..m.slugTo] == slug && At(text, CARD_MIDDLE, m.slugTo)
    ensures text[m.titleFrom..m.titleTo] == title && At(text, CARD_END, m.titleTo)
  {
    SixParts(text, i, CARD_OPEN, address, PANES, slug, CARD_MIDDLE, title, CARD_END);
  }

  lemma {:induction false} CardOfParts(text: string, i: nat, m: Match) returns (card: string)
    requires IsMatch(text, i, m)
    ensures var address := text[i + 22..m.slugFrom - 6];
      card == CARD_OPEN + address + PANES + text[m.slugFrom..m.slugTo] + CARD_MIDDLE + text[m.titleFrom..m.titleTo]
              + CARD_END
    ensures At(text, card, i)
  {
    var address, slug, title := text[i + 22..m.slugFrom - 6], text[m.slugFrom..m.slugTo], text[m.titleFrom..m.titleTo];
    card := CARD_OPEN + address + PANES + slug + CARD_MIDDLE + title + CARD_END;
    SixParts(text, i, CARD_OPEN, address, PANES, slug, CARD_MIDDLE, title, CARD_END);
  }

  lemma {:induction false} MatchesAreCards(text: string, i: nat, m: Match)
    returns (card: string, address: string, slug: string, title: string)
    requires IsMatch(text, i, m)
    ensures Spells(card, address, slug, title) && At(text, card, i) && LiesAt(i, address, slug, title, m)
    ensures text[m.slugFrom..m.slugTo] == slug && text[m.titleFrom..m.titleTo] == title
  {
    address, slug, title := text[i + 22..m.slugFrom - 6], text[m.slugFrom..m.slugTo], text[m.titleFrom..m.titleTo];
    card := CardOfParts(text, i, m);
  }
}
