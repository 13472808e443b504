/** The rewrite of all pane pages. */
module PaneSync {
  // Pages are read with universal newlines, the sidebar is swapped, and a page that changed is written back.

  import opened Options
  import opened Text
  import opened BlockRewrite
  import opened PaneCards
  import opened PaneSidebars

  // ---------------------------------------------------------------------------------------------------
  // Reading a text file
  // ---------------------------------------------------------------------------------------------------

  /** Reading in text mode: CR LF and a lone CR both become LF. */
  function Universal(d: string, from: nat := 0): string
    decreases |d| - from
  {
    if |d| <= from then ""
    else if d[from] == '\r' then
      "\n" + Universal(d, if from + 1 < |d| && d[from + 1] == '\n' then from + 2 else from + 1)
    else [d[from]] + Universal(d, from + 1)
  }

  lemma {:induction false} NoReturns(d: string, from: nat)
    ensures '\r' !in Universal(d, from)
    decreases |d| - from
  {
    if from < |d| {
      NoReturns(d, if d[from] == '\r' && from + 1 < |d| && d[from + 1] == '\n' then from + 2 else from + 1);
    }
  }

  lemma {:induction false} WithoutReturns(d: string, from: nat)
    requires from <= |d| && '\r' !in d
    ensures Universal(d, from) == d[from..]
    decreases |d| - from
  {
    if from < |d| {
      WithoutReturns(d, from + 1);
      assert d[from] in d && d[from..] == [d[from]] + d[from + 1..];
    }
  }

  lemma {:induction false} UniversalRest(a: string, b: string, from: nat)
    ensures Universal(a + b, |a| + from) == Universal(b, from)
    decreases |b| - from
  {
    if from < |b| {
      assert (a + b)[|a| + from] == b[from];
      UniversalRest(a, b, from + 1);
      UniversalRest(a, b, from + 2);
    }
  }

  lemma {:induction false} UniversalAppend(a: string, b: string, from: nat)
    requires from <= |a| && (b != "" ==> b[0] != '\n' || (a != "" ==> a[|a| - 1] != '\r'))
    ensures Universal(a + b, from) == Universal(a, from) + Universal(b)
    decreases |a| - from
  {
    if from == |a| {
      UniversalRest(a, b, 0);
    } else {
      assert (a + b)[from] == a[from];
      var next := if a[from] == '\r' && from + 1 < |a| && a[from + 1] == '\n' then from + 2 else from + 1;
      UniversalAppend(a, b, next);
      assert from + 1 < |a| ==> (a + b)[from + 1] == a[from + 1];
      var first := if a[from] == '\r' then "\n" else [a[from]];
      assert first + (Universal(a, next) + Universal(b)) == (first + Universal(a, next)) + Universal(b);
    }
  }

  /** Every line end, CR LF, CR or LF, reads as a line feed; a text without carriage returns reads as it is. */
  lemma {:induction false} LineEndsRead(a: string, b: string)
    ensures Universal(a + "\r\n" + b) == Universal(a) + "\n" + Universal(b)
    ensures b == "" || b[0] != '\n' ==> Universal(a + "\r" + b) == Universal(a) + "\n" + Universal(b)
    ensures a == "" || a[|a| - 1] != '\r' ==> Universal(a + "\n" + b) == Universal(a) + "\n" + Universal(b)
    ensures '\r' !in a ==> Universal(a) == a
  {
    EndRead(a, "\r\n", b);
    EndRead(a, "\r", b);
    EndRead(a, "\n", b);
    if '\r' !in a {
      WithoutReturns(a, 0);
    }
  }

  lemma {:induction false} EndRead(a: string, end: string, b: string)
    requires end == "\r\n" || end == "\r" || end == "\n"
    ensures end == "\r\n" || (end == "\r" && (b == "" || b[0] != '\n'))
            || (end == "\n" && (a == "" || a[|a| - 1] != '\r'))
      ==> Universal(a + end + b) == Universal(a) + "\n" + Universal(b)
  {
    assert a + end + b == a + (end + b);
    if end[0] != '\n' || a == "" || a[|a| - 1] != '\r' {
      UniversalAppend(a, end + b, 0);
      UniversalRest(end, b, 0);
    }
  }

  /** A piece of text on one line is read where it stands on the disk. */
  lemma {:induction false} PrefixOnDisk(d: string, from: nat, m: string)
    requires from <= |d| && m <= Universal(d, from) && '\n' !in m
    ensures At(d, m, from)
    decreases |m|
  {
    if m != "" {
      assert m[0] in m && m[0] == Universal(d, from)[0];
      assert d[from] == m[0];
      var rest := m[1..];
      assert m == [m[0]] + rest;
      assert rest <= Universal(d, from + 1);
      PrefixOnDisk(d, from + 1, rest);
      assert d[from..from + |m|] == [d[from]] + d[from + 1..from + 1 + |rest|];
    }
  }

  lemma {:induction false} FoundOnDisk(d: string, from: nat, m: string, p: nat) returns (i: nat)
    requires from <= |d| && m != "" && '\n' !in m && At(Universal(d, from), m, p)
    ensures At(d, m, i)
    decreases |d| - from
  {
    var u := Universal(d, from);
    if p == 0 {
      assert m == u[..|m|];
      PrefixOnDisk(d, from, m);
      i := from;
    } else {
      var next := if d[from] == '\r' && from + 1 < |d| && d[from + 1] == '\n' then from + 2 else from + 1;
      assert u[1..] == Universal(d, next);
      assert u[p..p + |m|] == u[1..][p - 1..p - 1 + |m|];
      i := FoundOnDisk(d, next, m, p - 1);
    }
  }

  // ---------------------------------------------------------------------------------------------------
  // One page
  // ---------------------------------------------------------------------------------------------------

  /** A file of the pages directory: its name without extension, and its contents on disk. */
  datatype Page = Page(name: string, bytes: string)

  function Slugs(panes: seq<Pane>): set<string> {
    set p | p in panes :: p.slug
  }

  function Active(panes: seq<Pane>, name: string): Option<string> {
    if name in Slugs(panes) || name == "settings" then Some(name) else None
  }

  function Updated(panes: seq<Pane>, page: Page): Replaced {
    Replace(Universal(page.bytes), ASIDE_OPEN, ASIDE_CLOSE, Aside(panes, Active(panes, page.name)))
  }

  /** The page after its turn; one without markers stops the whole run. */
  function Saved(panes: seq<Pane>, page: Page): Page {
    match Updated(panes, page)
    case Replaced(text) => if text == Universal(page.bytes) then page else page.(bytes := text)
    case _ => page
  }

  function CanonicalPanes(indexPage: string): seq<Pane> {
    Panes(Universal(indexPage))
  }

  lemma {:induction false} TitlesWithin(text: string, from: nat, c: char)
    requires c !in text
    ensures forall p <- Panes(text, from) :: c !in p.title
    decreases |text| - from
  {
    if from < |text| {
      match Scan(text, from)
      case None => TitlesWithin(text, from + 1, c);
      case Some(m) =>
        TitlesWithin(text, m.End(), c);
        assert forall k :: m.titleFrom <= k < m.titleTo ==> text[k] in text;
    }
  }

  /** The panes read from the index make a sidebar that is a proper block. */
  lemma {:induction false} SidebarIsBlock(indexPage: string, active: Option<string>)
    ensures var aside := Aside(CanonicalPanes(indexPage), active);
      IsBlock(aside, ASIDE_OPEN, ASIDE_CLOSE) && '\r' !in aside
  {
    var text := Universal(indexPage);
    NoReturns(indexPage, 0);
    PanesAreProper(text, 0);
    TitlesWithin(text, 0, '\r');
    forall p | p in Panes(text) ensures PlainPane(p)
    {
      ProperIsPlain(p);
    }
    AsideIsBlock(Panes(text), active);
  }

  lemma {:induction false} NoReturnsWritten(text: string, aside: string)
    requires '\r' !in text && '\r' !in aside && Replace(text, ASIDE_OPEN, ASIDE_CLOSE, aside).Replaced?
    ensures '\r' !in Replace(text, ASIDE_OPEN, ASIDE_CLOSE, aside).text
  {
  }

  /** A page that was saved is left alone by the next run. */
  lemma {:induction false} SavedStays(indexPage: string, page: Page)
    requires Updated(CanonicalPanes(indexPage), page).Replaced?
    ensures var panes := CanonicalPanes(indexPage);
      Updated(panes, Saved(panes, page)).Replaced? && Saved(panes, Saved(panes, page)) == Saved(panes, page)
  {
    var panes := CanonicalPanes(indexPage);
    var aside, text := Aside(panes, Active(panes, page.name)), Universal(page.bytes);
    var updated := Updated(panes, page).text;
    SidebarIsBlock(indexPage, Active(panes, page.name));
    NoReturns(page.bytes, 0);
    NoReturnsWritten(text, aside);
    WithoutReturns(updated, 0);
    MarkersSeparate();
    LaterBlockWins(text, ASIDE_OPEN, ASIDE_CLOSE, aside, aside);
  }

  /**
   A page whose text holds an old sidebar reads as the same text with the new one in its place after its turn. It is
   written exactly if the two sidebars differ, and then as that text.
   */
  lemma {:induction false} TurnExactly(indexPage: string, page: Page, pre: string, block: string, post: string)
    requires Holds(Universal(page.bytes), ASIDE_OPEN, ASIDE_CLOSE, pre, block, post)
    ensures
      var panes := CanonicalPanes(indexPage);
      var aside, after := Aside(panes, Active(panes, page.name)), Saved(panes, page);
      && after.name == page.name && Universal(after.bytes) == pre + aside + post
      && (block == aside ==> after == page)
      && (block != aside ==> after.bytes == pre + aside + post && after != page)
  {
    var panes, text := CanonicalPanes(indexPage), Universal(page.bytes);
    var aside := Aside(panes, Active(panes, page.name));
    ReplaceHeld(text, ASIDE_OPEN, ASIDE_CLOSE, pre, block, post, aside);
    SidebarIsBlock(indexPage, Active(panes, page.name));
    NoReturns(page.bytes, 0);
    NoReturnsWritten(text, aside);
    WithoutReturns(pre + aside + post, 0);
    if page.bytes == pre + aside + post {
      WithoutReturns(page.bytes, 0);
    }
    MiddleDiffers(pre, block, aside, post);
  }

  lemma {:induction false} MiddleDiffers(pre: string, a: string, b: string, post: string)
    ensures pre + a + post == pre + b + post <==> a == b
  {
    if pre + a + post == pre + b + post {
      assert |a| == |b|;
      assert (pre + a + post)[|pre|..|pre| + |a|] == a && (pre + b + post)[|pre|..|pre| + |b|] == b;
    }
  }

  // ---------------------------------------------------------------------------------------------------
  // What is outside the sidebar
  // ---------------------------------------------------------------------------------------------------

  /** Reading changes line ends inside the old sidebar only. */
  lemma {:induction false} ReadBlock(pre: string, block: string, post: string)
    requires Holds(pre + block + post, ASIDE_OPEN, ASIDE_CLOSE, pre, block, post) && '\r' !in pre && '\r' !in post
    ensures Universal(pre + block + post) == pre + Universal(block) + post
    ensures IsBlock(Universal(block), ASIDE_OPEN, ASIDE_CLOSE)
  {
    CharAt(block, ASIDE_CLOSE, |block| - |ASIDE_CLOSE|, |ASIDE_CLOSE| - 1);
    ReadAround(pre, block, post);
    ReadStart(block);
    ReadEnd(block);
  }

  lemma {:induction false} ReadAround(pre: string, block: string, post: string)
    requires '\r' !in pre && '\r' !in post && block != "" && block[|block| - 1] == '>'
    ensures Universal(pre + block + post) == pre + Universal(block) + post
  {
    assert pre != "" ==> pre[|pre| - 1] in pre;
    assert (pre + block)[|pre + block| - 1] == '>';
    UniversalAppend(pre + block, post, 0);
    UniversalAppend(pre, block, 0);
    WithoutReturns(pre, 0);
    WithoutReturns(post, 0);
    assert pre[0..] == pre && post[0..] == post;
  }

  lemma {:induction false} OneLine()
    ensures '\r' !in ASIDE_OPEN && '\n' !in ASIDE_CLOSE && '\r' !in ASIDE_CLOSE
  {
    PlainOpen();
  }

  lemma {:induction false} ReadStart(block: string)
    requires ASIDE_OPEN <= block
    ensures ASIDE_OPEN <= Universal(block)
  {
    var rest := block[|ASIDE_OPEN|..];
    assert block == ASIDE_OPEN + rest;
    OneLine();
    WithoutReturns(ASIDE_OPEN, 0);
    assert ASIDE_OPEN[|ASIDE_OPEN| - 1] in ASIDE_OPEN;
    UniversalAppend(ASIDE_OPEN, rest, 0);
  }

  lemma {:induction false} ReadEnd(block: string)
    requires |ASIDE_CLOSE| <= |block| && FirstAt(block, ASIDE_CLOSE, 0, |block| - |ASIDE_CLOSE|)
    ensures var u := Universal(block);
      |ASIDE_CLOSE| <= |u| && FirstAt(u, ASIDE_CLOSE, 0, |u| - |ASIDE_CLOSE|)
  {
    var u, head := Universal(block), block[..|block| - |ASIDE_CLOSE|];
    assert block == head + ASIDE_CLOSE;
    OneLine();
    UniversalAppend(head, ASIDE_CLOSE, 0);
    WithoutReturns(ASIDE_CLOSE, 0);
    assert u == Universal(head) + ASIDE_CLOSE;
    forall p: nat | p < |u| - |ASIDE_CLOSE| ensures !At(u, ASIDE_CLOSE, p)
    {
      if At(u, ASIDE_CLOSE, p) {
        var i := EarlierOnDisk(block, p);
      }
    }
  }

  lemma {:induction false} ReadButLast(s: string, last: char)
    requires last != '\n' && last != '\r'
    ensures Universal(s + [last]) == Universal(s) + [last]
  {
    UniversalAppend(s, [last], 0);
    WithoutReturns([last], 0);
  }

  lemma {:induction false} EarlierOnDisk(block: string, p: nat) returns (i: nat)
    requires |ASIDE_CLOSE| <= |block| && At(block, ASIDE_CLOSE, |block| - |ASIDE_CLOSE|)
    requires At(Universal(block), ASIDE_CLOSE, p) && p + |ASIDE_CLOSE| < |Universal(block)|
    ensures At(block, ASIDE_CLOSE, i) && i < |block| - |ASIDE_CLOSE|
  {
    var short := block[..|block| - 1];
    CharAt(block, ASIDE_CLOSE, |block| - |ASIDE_CLOSE|, |ASIDE_CLOSE| - 1);
    assert block == short + ">";
    ReadButLast(short, '>');
    assert Universal(block)[p..p + |ASIDE_CLOSE|] == Universal(short)[p..p + |ASIDE_CLOSE|];
    OneLine();
    i := FoundOnDisk(short, 0, ASIDE_CLOSE, p);
    assert block[i..i + |ASIDE_CLOSE|] == short[i..i + |ASIDE_CLOSE|];
  }

  /**
   A page that is written keeps every byte outside its sidebar exactly if no carriage return stands there: the page
   is read with universal newlines and written with plain ones.
   */
  lemma {:induction false} OutsideKeptExactly(indexPage: string, page: Page, pre: string, block: string, post: string)
    requires Holds(page.bytes, ASIDE_OPEN, ASIDE_CLOSE, pre, block, post)
    requires var panes := CanonicalPanes(indexPage); Saved(panes, page) != page
    ensures
      var panes := CanonicalPanes(indexPage);
      Saved(panes, page).bytes == pre + Aside(panes, Active(panes, page.name)) + post <==> '\r' !in pre && '\r' !in post
  {
    var panes := CanonicalPanes(indexPage);
    var aside := Aside(panes, Active(panes, page.name));
    SidebarIsBlock(indexPage, Active(panes, page.name));
    NoReturns(page.bytes, 0);
    NoReturnsWritten(Universal(page.bytes), aside);
    if '\r' !in pre && '\r' !in post {
      ReadBlock(pre, block, post);
      assert page.bytes == pre + block + post;
      var u := Universal(block);
      HoldsAgain(page.bytes, ASIDE_OPEN, ASIDE_CLOSE, pre, block, post, u);
      ReplaceHeld(pre + u + post, ASIDE_OPEN, ASIDE_CLOSE, pre, u, post, aside);
    } else {
      assert '\r' in pre + aside + post;
    }
  }

  // ---------------------------------------------------------------------------------------------------
  // All pages
  // ---------------------------------------------------------------------------------------------------

  datatype Outcome = NoCards | Stopped(at: nat) | Done(changed: nat, same: nat)

  function SavedPages(panes: seq<Pane>, pages: seq<Page>): (r: seq<Page>)
    ensures |r| == |pages|
  {
    seq(|pages|, k requires 0 <= k < |pages| => Saved(panes, pages[k]))
  }

  /** The disk when the first `n` pages have had their turn. */
  function UpTo(saved: seq<Page>, pages: seq<Page>, n: nat): (r: seq<Page>)
    requires n <= |pages| == |saved|
    ensures |r| == |pages|
  {
    saved[..n] + pages[n..]
  }

  function Changes(saved: seq<Page>, pages: seq<Page>, n: nat): (r: nat)
    requires n <= |pages| == |saved|
    ensures r <= n
  {
    if n == 0 then 0 else Changes(saved, pages, n - 1) + if saved[n - 1] != pages[n - 1] then 1 else 0
  }

  ghost predicate AllHaveMarkers(panes: seq<Pane>, pages: seq<Page>, n: nat) {
    forall k :: 0 <= k < n && k < |pages| ==> Updated(panes, pages[k]).Replaced?
  }

  /** What one run leaves on the disk, and how it ends. */
  ghost predicate RunEnds(panes: seq<Pane>, pages: seq<Page>, disk: seq<Page>, outcome: Outcome) {
    match outcome
    case NoCards => panes == [] && disk == pages
    case Stopped(at) =>
      at < |pages| && AllHaveMarkers(panes, pages, at) && !Updated(panes, pages[at]).Replaced?
        && disk == UpTo(SavedPages(panes, pages), pages, at)
    case Done(changed, same) =>
      && panes != [] && AllHaveMarkers(panes, pages, |pages|) && disk == SavedPages(panes, pages)
      && changed == Changes(SavedPages(panes, pages), pages, |pages|) && changed + same == |pages|
  }

  method Sync(indexPage: string, pages: seq<Page>) returns (disk: seq<Page>, outcome: Outcome)
    ensures RunEnds(CanonicalPanes(indexPage), pages, disk, outcome)
  {
    var panes := CanonicalPanes(indexPage);
    if panes == [] {
      return pages, NoCards;
    }
    disk := pages;
    var changed, same := 0, 0;
    for k := 0 to |pages|
      invariant Progress(panes, pages, disk, k, changed) && changed + same == k
    {
      NextPage(panes, pages, disk, k, changed);
      var after, found := SyncPage(indexPage, panes, disk[k]);
      if !found {
        return disk, Stopped(k);
      }
      if after != disk[k] {
        disk := disk[k := after];
        changed := changed + 1;
      } else {
        same := same + 1;
      }
    }
    assert UpTo(SavedPages(panes, pages), pages, |pages|) == SavedPages(panes, pages);
    return disk, Done(changed, same);
  }

  /** The first `k` pages have had their turn. */
  ghost predicate Progress(panes: seq<Pane>, pages: seq<Page>, disk: seq<Page>, k: nat, changed: nat) {
    && k <= |pages| && AllHaveMarkers(panes, pages, k)
    && disk == UpTo(SavedPages(panes, pages), pages, k) && changed == Changes(SavedPages(panes, pages), pages, k)
  }

  lemma {:induction false} NextUpTo(saved: seq<Page>, pages: seq<Page>, k: nat)
    requires k < |pages| == |saved|
    ensures UpTo(saved, pages, k)[k] == pages[k] && UpTo(saved, pages, k)[k := saved[k]] == UpTo(saved, pages, k + 1)
  {
  }

  lemma {:induction false} NextPage(panes: seq<Pane>, pages: seq<Page>, disk: seq<Page>, k: nat, changed: nat)
    requires k < |pages| && Progress(panes, pages, disk, k, changed)
    ensures disk[k] == pages[k]
    ensures Updated(panes, pages[k]).Replaced? ==>
      var after := Saved(panes, pages[k]);
      Progress(panes, pages, disk[k := after], k + 1, if after != pages[k] then changed + 1 else changed)
  {
    NextUpTo(SavedPages(panes, pages), pages, k);
  }

  method SyncPage(indexPage: string, panes: seq<Pane>, page: Page) returns (after: Page, found: bool)
    requires panes == CanonicalPanes(indexPage)
    ensures found == Updated(panes, page).Replaced? && after == Saved(panes, page)
    ensures found ==> (after != page <==> Updated(panes, page).text != Universal(page.bytes))
  {
    var original := Universal(page.bytes);
    var aside := BuildAside(panes, Active(panes, page.name));
    match Replace(original, ASIDE_OPEN, ASIDE_CLOSE, aside) {
      case Replaced(updated) =>
        if updated != original {
          OnlyOtherText(indexPage, page, updated);
          return page.(bytes := updated), true;
        } else {
          return page, true;
        }
      case _ =>
        return page, false;
    }
  }

  /** What is written differs from what is on the disk. */
  lemma {:induction false} OnlyOtherText(indexPage: string, page: Page, updated: string)
    requires Updated(CanonicalPanes(indexPage), page) == Replaced(updated) && updated != Universal(page.bytes)
    ensures Saved(CanonicalPanes(indexPage), page) != page
  {
    var active := Active(CanonicalPanes(indexPage), page.name);
    SidebarIsBlock(indexPage, active);
    NoReturns(page.bytes, 0);
    NoReturnsWritten(Universal(page.bytes), Aside(CanonicalPanes(indexPage), active));
    if page.bytes == updated {
      WithoutReturns(page.bytes, 0);
    }
  }

  /** A second run over the pages a completed run has left changes nothing. */
  lemma {:induction false} SecondRunChangesNothing(indexPage: string, pages: seq<Page>)
    requires AllHaveMarkers(CanonicalPanes(indexPage), pages, |pages|)
    ensures
      var panes := CanonicalPanes(indexPage);
      var once := SavedPages(panes, pages);
      AllHaveMarkers(panes, once, |once|) && SavedPages(panes, once) == once
        && Changes(SavedPages(panes, once), once, |once|) == 0
  {
    var panes := CanonicalPanes(indexPage);
    var once := SavedPages(panes, pages);
    forall k | 0 <= k < |once| ensures Updated(panes, once[k]).Replaced? && SavedPages(panes, once)[k] == once[k]
    {
      SavedStays(indexPage, pages[k]);
    }
    assert SavedPages(panes, once) == once;
    NoChanges(once, |once|);
  }

  lemma {:induction false} NoChanges(pages: seq<Page>, n: nat)
    requires n <= |pages|
    ensures Changes(pages, pages, n) == 0
  {
    if n > 0 {
      NoChanges(pages, n - 1);
    }
  }

  // ---------------------------------------------------------------------------------------------------
  // The active link
  // ---------------------------------------------------------------------------------------------------

  /** Two sidebars have the same lines but for the links of the two active pages. */
  lemma {:induction false} SidebarsDifferInActiveLinks(panes: seq<Pane>, a: Option<string>, b: Option<string>, k: nat)
                                                       returns (p: Pane)
    requires k < |Body(panes, a)|
    ensures |Body(panes, b)| == |Body(panes, a)|
    ensures Body(panes, a)[k] == Body(panes, b)[k]
         || ((p in panes || p == SETTINGS) && (a == Some(p.slug) || b == Some(p.slug))
             && Body(panes, a)[k] == Link(p.slug, p.title, a) && Body(panes, b)[k] == Link(p.slug, p.title, b))
  {
    var head := [ASIDE_OPEN] + ReferenceGroup() + PanesHead(|panes|);
    Differ(head, Links(panes, a), Links(panes, b), [LIST_END, GROUP_END, GROUP, PANELS_HEAD, LIST],
           Link("settings", "Settings", a), Link("settings", "Settings", b), [LIST_END, GROUP_END], k);
    p := if 0 <= k - |head| < |panes| then panes[k - |head|] else SETTINGS;
    if a != Some(p.slug) && b != Some(p.slug) {
      SameLink(p.slug, p.title, a, b);
    }
  }

  const SETTINGS := Pane("settings", "Settings")

  lemma {:induction false} SameLink(slug: string, title: string, a: Option<string>, b: Option<string>)
    requires a != Some(slug) && b != Some(slug)
    ensures Link(slug, title, a) == Link(slug, title, b)
  {
  }

  /** Two lists that agree but for a stretch and one element later on. */
  lemma {:induction false} Differ(head: seq<string>, la: seq<string>, lb: seq<string>, mid: seq<string>, sa: string,
                                  sb: string, tail: seq<string>, k: nat)
    requires |la| == |lb|
    requires k < |head + la + (mid + [sa] + tail)|
    ensures var a, b := head + la + (mid + [sa] + tail), head + lb + (mid + [sb] + tail);
      && |a| == |b|
      && (a[k] == b[k] || (0 <= k - |head| < |la| && a[k] == la[k - |head|] && b[k] == lb[k - |head|])
          || (|head| + |la| <= k && a[k] == sa && b[k] == sb))
  {
  }

  /** A link of the sidebar, to a page of the pages directory, marked or not. */
  function LinkLine(slug: string, title: string, marked: bool): string {
    "        <li><a href=\"" + "../../../docs/" + "reference" + "/panes/" + slug + ".html" + "\""
    + (if marked then " class=\"active\"" else "") + ">" + title + "</a></li>"
  }

  lemma {:induction false} LinkIsLine(slug: string, title: string, active: Option<string>)
    ensures Link(slug, title, active) == LinkLine(slug, title, active == Some(slug))
  {
    var mark := if active == Some(slug) then " class=\"active\"" else "";
    HrefParts("        <li><a href=\"", "../../../docs/", "reference", "/panes/", slug, ".html");
    assert Link(slug, title, active)
      == ("        <li><a href=\"" + (REFERENCE + "/panes/" + slug + ".html")) + "\"" + mark + ">" + title
         + "</a></li>";
  }

  lemma {:induction false} HrefParts(a: string, b: string, c: string, d: string, e: string, f: string)
    ensures a + (b + c + d + e + f) == a + b + c + d + e + f
  {
  }

  /** A link of the reference group, never marked. */
  function ReferenceLine(target: string, title: string): string {
    "        <li><a href=\"" + "../../../docs/" + "reference" + target + "\"" + "" + ">" + title + "</a></li>"
  }

  lemma {:induction false} ReferenceIsLine(target: string, title: string)
    ensures Item(REFERENCE + target, "", title) == ReferenceLine(target, title)
  {
    HrefParts("        <li><a href=\"", "../../../docs/", "reference", target, "", "");
    assert REFERENCE + target == "../../../docs/" + "reference" + target + "" + "";
  }

  /** The other lines of the sidebar: the links into the reference, and the number of panes in the heading. */
  lemma {:induction false} OtherLinesExactly(panes: seq<Pane>, active: Option<string>)
    ensures
      var lines, n := Body(panes, active), |panes|;
      && lines[4] == ReferenceLine(".html", "All reference") && lines[5] == ReferenceLine("/mcp.html", "MCP tools")
      && lines[6] == ReferenceLine("/cli.html", "CLI commands")
      && lines[7] == ReferenceLine("/options.html", "Options &amp; env")
      && lines[8] == ReferenceLine("/panes.html", "Panes index")
      && lines[12] == "      <h4>Pane types (" + Numeral(n) + ")</h4>"
  {
    ReferenceIsLine(".html", "All reference");
    ReferenceIsLine("/mcp.html", "MCP tools");
    ReferenceIsLine("/cli.html", "CLI commands");
    ReferenceIsLine("/options.html", "Options &amp; env");
    ReferenceIsLine("/panes.html", "Panes index");
  }

  /**
   The sidebar of a page links to every pane, in order, and to the settings page; marked is exactly the link whose
   target has the name of the page.
   */
  lemma {:induction false} ActiveMarkExactly(panes: seq<Pane>, name: string)
    ensures
      var lines, n := Body(panes, Active(panes, name)), |panes|;
      && |lines| == n + 22
      && (forall k :: 0 <= k < n ==> lines[14 + k] == LinkLine(panes[k].slug, panes[k].title, panes[k].slug == name))
      && lines[n + 19] == LinkLine("settings", "Settings", name == "settings")
  {
    var active, n := Active(panes, name), |panes|;
    var head := [ASIDE_OPEN] + ReferenceGroup() + PanesHead(n);
    var lines := Body(panes, active);
    assert |head| == 14 && lines == head + Links(panes, active) + PanelsGroup(active);
    forall k | 0 <= k < n
      ensures lines[14 + k] == LinkLine(panes[k].slug, panes[k].title, panes[k].slug == name)
    {
      assert panes[k] in panes && panes[k].slug in Slugs(panes);
      LinkIsLine(panes[k].slug, panes[k].title, active);
    }
    LinkIsLine("settings", "Settings", active);
  }
}
