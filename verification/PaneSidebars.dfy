/**
 Every pane page carries the same sidebar, rebuilt from the index page.

 One list of lines is grown group by group and joined at the end. What is stated is the finished text: the groups in
 order between the markers, and where the markers can occur in it.
 */
module PaneSidebars {
  import opened Options
  import opened Text
  import opened BlockRewrite
  import opened PaneCards

  const ASIDE_OPEN := "  <aside class=" + "\"wiki-nav\" aria" + "-label=\"Pane " + "navigation\">"
  const ASIDE_CLOSE := "  </aside>"

  // ---------------------------------------------------------------------------------------------------
  // The sidebar
  // ---------------------------------------------------------------------------------------------------

  const GROUP := "    <div class=" + "\"wiki-nav-group\">"
  const REFERENCE := "../../../docs/" + "reference"
  const REFERENCE_HEAD := "      <h4>" + "Reference</h4>"
  const PANELS_HEAD := "      <h4>Panels " + "&amp; overlays</h4>"
  const LIST := "      <ul>"
  const LIST_END := "      </ul>"
  const GROUP_END := "    </div>"

  function Item(href: string, active: string, title: string): string {
    "        <li><a href=\"" + href + "\"" + active + ">" + title + "</a></li>"
  }

  function Link(slug: string, title: string, active: Option<string>): string {
    Item(REFERENCE + "/panes/" + slug + ".html", if active == Some(slug) then " class=\"active\"" else "", title)
  }

  function Links(panes: seq<Pane>, active: Option<string>): (r: seq<string>)
    ensures |r| == |panes| && forall k :: 0 <= k < |r| ==> r[k] == Link(panes[k].slug, panes[k].title, active)
  {
    seq(|panes|, k requires 0 <= k < |panes| => Link(panes[k].slug, panes[k].title, active))
  }

  function ReferenceGroup(): seq<string> {
    [ GROUP,
      REFERENCE_HEAD,
      LIST,
      Item(REFERENCE + ".html", "", "All reference"),
      Item(REFERENCE + "/mcp.html", "", "MCP tools"),
      Item(REFERENCE + "/cli.html", "", "CLI commands"),
      Item(REFERENCE + "/options.html", "", "Options &amp; env"),
      Item(REFERENCE + "/panes.html", "", "Panes index"),
      LIST_END,
      GROUP_END ]
  }

  function PanesHead(count: nat): seq<string> {
    [GROUP, "      <h4>Pane types (" + Numeral(count) + ")</h4>", LIST]
  }

  function PanelsGroup(active: Option<string>): seq<string> {
    [LIST_END, GROUP_END, GROUP, PANELS_HEAD, LIST] + [Link("settings", "Settings", active)] + [LIST_END, GROUP_END]
  }

  /** Everything before the closing line. */
  function Body(panes: seq<Pane>, active: Option<string>): seq<string> {
    [ASIDE_OPEN] + ReferenceGroup() + PanesHead(|panes|) + Links(panes, active) + PanelsGroup(active)
  }

  function Join(lines: seq<string>): string {
    if lines == [] then "" else if |lines| == 1 then lines[0]
    else Join(lines[..|lines| - 1]) + "\n" + lines[|lines| - 1]
  }

  function Aside(panes: seq<Pane>, active: Option<string>): string {
    Join(Body(panes, active) + [ASIDE_CLOSE])
  }

  method BuildAside(panes: seq<Pane>, active: Option<string>) returns (aside: string)
    ensures aside == Aside(panes, active)
  {
    var lines := [ASIDE_OPEN];
    lines := lines + ReferenceGroup();
    lines := lines + PanesHead(|panes|);
    ghost var head := lines;
    for k := 0 to |panes|
      invariant lines == head + Links(panes, active)[..k]
    {
      lines := lines + [Link(panes[k].slug, panes[k].title, active)];
      assert Links(panes, active)[..k + 1] == Links(panes, active)[..k] + [lines[|lines| - 1]];
    }
    assert Links(panes, active)[..|panes|] == Links(panes, active);
    lines := lines + PanelsGroup(active);
    lines := lines + [ASIDE_CLOSE];
    aside := Join(lines);
  }

  // ---------------------------------------------------------------------------------------------------
  // The sidebar is a block
  // ---------------------------------------------------------------------------------------------------

  /** No tag in the text is, or may become by what follows, an `</as...` tag; and there is no carriage return. */
  ghost predicate Plain(s: string) {
    && '\r' !in s
    && forall i :: 0 <= i < |s| && s[i] == '<' ==>
       i + 3 < |s| && !(s[i + 1] == '/' && s[i + 2] == 'a' && s[i + 3] == 's')
  }

  lemma {:induction false} PlainAppend(a: string, b: string)
    requires Plain(a) && Plain(b)
    ensures Plain(a + b)
  {
    var s := a + b;
    forall i | 0 <= i < |s| && s[i] == '<'
      ensures i + 3 < |s| && !(s[i + 1] == '/' && s[i + 2] == 'a' && s[i + 3] == 's')
    {
      if i < |a| {
        assert a[i] == '<';
      } else {
        assert b[i - |a|] == '<';
      }
    }
  }

  lemma {:induction false} PlainItem(href: string, active: string, title: string)
    requires Plain(href) && Plain(active) && Plain(title)
    ensures Plain(Item(href, active, title))
  {
    PlainAppend("        <li><a href=\"", href);
    PlainAppend("        <li><a href=\"" + href, "\"");
    PlainAppend("        <li><a href=\"" + href + "\"", active);
    PlainAppend("        <li><a href=\"" + href + "\"" + active, ">");
    PlainAppend("        <li><a href=\"" + href + "\"" + active + ">", title);
    PlainAppend("        <li><a href=\"" + href + "\"" + active + ">" + title, "</a></li>");
  }

  ghost predicate PlainPane(p: Pane) {
    Plain(p.slug) && Plain(p.title)
  }

  lemma {:induction false} PlainLink(slug: string, title: string, active: Option<string>)
    requires Plain(slug) && Plain(title)
    ensures Plain(Link(slug, title, active))
  {
    PlainAppend(REFERENCE + "/panes/", slug);
    PlainAppend(REFERENCE + "/panes/" + slug, ".html");
    PlainItem(REFERENCE + "/panes/" + slug + ".html", if active == Some(slug) then " class=\"active\"" else "", title);
  }

  ghost predicate PlainLines(lines: seq<string>) {
    forall k :: 0 <= k < |lines| ==> Plain(lines[k])
  }

  lemma {:induction false} PlainConstants()
    ensures Plain(GROUP) && Plain(LIST) && Plain(LIST_END) && Plain(GROUP_END)
  {
    PlainAppend("    <div class=", "\"wiki-nav-group\">");
  }

  lemma {:induction false} PlainReferenceHead()
    ensures Plain(REFERENCE_HEAD)
  {
    PlainAppend("      <h4>", "Reference</h4>");
  }

  lemma {:induction false} PlainPanelsHead()
    ensures Plain(PANELS_HEAD)
  {
    PlainAppend("      <h4>Panels ", "&amp; overlays</h4>");
  }

  lemma {:induction false} PlainReferenceItem(tail: string, title: string)
    requires Plain(tail) && Plain(title)
    ensures Plain(Item(REFERENCE + tail, "", title))
  {
    PlainItem(REFERENCE + tail, "", title);
  }

  lemma {:induction false} PlainGeneral()
    ensures Plain(Item(REFERENCE + ".html", "", "All reference"))
    ensures Plain(Item(REFERENCE + "/mcp.html", "", "MCP tools"))
  {
    PlainReferenceItem(".html", "All reference");
    PlainReferenceItem("/mcp.html", "MCP tools");
  }

  lemma {:induction false} PlainCommands()
    ensures Plain(Item(REFERENCE + "/cli.html", "", "CLI commands"))
    ensures Plain(Item(REFERENCE + "/options.html", "", "Options &amp; env"))
  {
    PlainReferenceItem("/cli.html", "CLI commands");
    PlainReferenceItem("/options.html", "Options &amp; env");
  }

  lemma {:induction false} PlainIndex()
    ensures Plain(Item(REFERENCE + "/panes.html", "", "Panes index"))
  {
    PlainReferenceItem("/panes.html", "Panes index");
  }

  lemma {:induction false} PlainReference()
    ensures PlainLines(ReferenceGroup())
  {
    PlainConstants();
    PlainReferenceHead();
    PlainGeneral();
    PlainCommands();
    PlainIndex();
  }

  lemma {:induction false} NoTag(s: string)
    requires forall c <- s :: c != '<' && c != '\r'
    ensures Plain(s)
  {
    forall i | 0 <= i < |s| ensures s[i] != '<'
    {
      assert s[i] in s;
    }
  }

  lemma {:induction false} PlainPanesHead(count: nat)
    ensures PlainLines(PanesHead(count))
  {
    var n := Numeral(count);
    NoTag(n);
    PlainAppend("      <h4>Pane types (", n);
    PlainAppend("      <h4>Pane types (" + n, ")</h4>");
    PlainConstants();
  }

  lemma {:induction false} PlainPanels(active: Option<string>)
    ensures PlainLines(PanelsGroup(active))
  {
    PlainLink("settings", "Settings", active);
    PlainConstants();
    PlainPanelsHead();
  }

  lemma {:induction false} PlainConcat(a: seq<string>, b: seq<string>)
    requires PlainLines(a) && PlainLines(b)
    ensures PlainLines(a + b)
  {
  }

  lemma {:induction false} PlainBody(panes: seq<Pane>, active: Option<string>)
    requires forall p <- panes :: PlainPane(p)
    ensures PlainLines(Body(panes, active))
  {
    var links := Links(panes, active);
    forall k | 0 <= k < |links| ensures Plain(links[k])
    {
      assert PlainPane(panes[k]);
      PlainLink(panes[k].slug, panes[k].title, active);
    }
    PlainOpen();
    PlainReference();
    PlainPanesHead(|panes|);
    PlainPanels(active);
    PlainConcat([ASIDE_OPEN], ReferenceGroup());
    PlainConcat([ASIDE_OPEN] + ReferenceGroup(), PanesHead(|panes|));
    PlainConcat([ASIDE_OPEN] + ReferenceGroup() + PanesHead(|panes|), links);
    PlainConcat([ASIDE_OPEN] + ReferenceGroup() + PanesHead(|panes|) + links, PanelsGroup(active));
  }

  lemma {:induction false} PlainOpen()
    ensures Plain(ASIDE_OPEN)
  {
    PlainAppend("  <aside class=", "\"wiki-nav\" aria");
    PlainAppend("  <aside class=" + "\"wiki-nav\" aria", "-label=\"Pane ");
    PlainAppend("  <aside class=" + "\"wiki-nav\" aria" + "-label=\"Pane ", "navigation\">");
  }

  lemma {:induction false} PlainJoin(lines: seq<string>)
    requires PlainLines(lines)
    ensures Plain(Join(lines))
    decreases |lines|
  {
    if 1 < |lines| {
      PlainJoin(lines[..|lines| - 1]);
      PlainAppend(Join(lines[..|lines| - 1]), "\n");
      PlainAppend(Join(lines[..|lines| - 1]) + "\n", lines[|lines| - 1]);
    }
  }

  lemma {:induction false} JoinStarts(lines: seq<string>)
    requires lines != []
    ensures lines[0] <= Join(lines)
    decreases |lines|
  {
    if 1 < |lines| {
      JoinStarts(lines[..|lines| - 1]);
    }
  }

  /** After plain text the close marker comes first where it is put. */
  lemma {:induction false} CloseComesLast(text: string)
    requires Plain(text)
    ensures FirstAt(text + "\n" + ASIDE_CLOSE, ASIDE_CLOSE, 0, |text| + 1)
  {
    var whole := text + "\n" + ASIDE_CLOSE;
    forall j: nat | j <= |text| ensures !At(whole, ASIDE_CLOSE, j)
    {
      if At(whole, ASIDE_CLOSE, j) {
        CharAt(whole, ASIDE_CLOSE, j, 2);
        CharAt(whole, ASIDE_CLOSE, j, 3);
        CharAt(whole, ASIDE_CLOSE, j, 4);
        CharAt(whole, ASIDE_CLOSE, j, 5);
      }
    }
  }

  /** The built sidebar holds the close marker once, at its end. */
  lemma {:induction false} AsideIsBlock(panes: seq<Pane>, active: Option<string>)
    requires forall p <- panes :: PlainPane(p)
    ensures IsBlock(Aside(panes, active), ASIDE_OPEN, ASIDE_CLOSE) && '\r' !in Aside(panes, active)
  {
    var body := Body(panes, active);
    PlainBody(panes, active);
    PlainJoin(body);
    JoinStarts(body);
    CloseComesLast(Join(body));
    assert (body + [ASIDE_CLOSE])[..|body|] == body;
    assert body[0] == ASIDE_OPEN;
  }

  lemma {:induction false} MarkersSeparate()
    ensures Separate(ASIDE_OPEN, ASIDE_CLOSE)
  {
    forall rest: string, i: nat | i < |ASIDE_OPEN| ensures !At(ASIDE_OPEN + rest, ASIDE_CLOSE, i)
    {
      if At(ASIDE_OPEN + rest, ASIDE_CLOSE, i) {
        CharAt(ASIDE_OPEN + rest, ASIDE_CLOSE, i, 0);
        CharAt(ASIDE_OPEN + rest, ASIDE_CLOSE, i, 2);
        CharAt(ASIDE_OPEN + rest, ASIDE_CLOSE, i, 3);
        OpenHasOneTag(rest, i);
      }
    }
  }

  lemma {:induction false} OpenHasOneTag(rest: string, i: nat)
    requires i < |ASIDE_OPEN| && i + 3 < |ASIDE_OPEN + rest|
    ensures var t := ASIDE_OPEN + rest; !(t[i] == ' ' && t[i + 2] == '<' && t[i + 3] == '/')
  {
    var a, b, c, d := "  <aside class=", "\"wiki-nav\" aria", "-label=\"Pane ", "navigation\">";
    var t := ASIDE_OPEN + rest;
    assert t == a + (b + (c + (d + rest)));
    if i + 2 < |a| {
      assert t[i + 2] == a[i + 2] && t[3] == a[3];
    } else if i + 2 < |a| + |b| {
      assert t[i + 2] == b[i + 2 - |a|];
    } else if i + 2 < |a| + |b| + |c| {
      assert t[i + 2] == c[i + 2 - |a| - |b|];
    } else if i + 2 < |ASIDE_OPEN| {
      assert t[i + 2] == d[i + 2 - |a| - |b| - |c|];
    } else {
      assert t[i] == d[i - |a| - |b| - |c|];
    }
  }

  lemma {:induction false} ProperIsPlain(p: Pane)
    requires ProperPane(p) && '\r' !in p.title
    ensures PlainPane(p)
  {
    forall c | c in p.slug ensures c != '<' && c != '\r'
    {
      assert IsSlugChar(c);
    }
    NoTag(p.slug);
    NoTag(p.title);
  }
}
