/** The rows of the sidebar. */
module FileRows {
  // The rows of a tree are stated without the recursion that lists them: by the way that leads to each of them, and by
  // where they stand relative to each other.

  import opened Options
  import opened FileTree

  // ---------------------------------------------------------------------------------------------------
  // Names
  // ---------------------------------------------------------------------------------------------------

  /** Hidden names but one, and the names of build products, are not shown. */
  predicate IsShownName(name: string) {
    if |name| > 0 && name[0] == '.' then name == ".claude"
    else name != "node_modules" && name != "__pycache__" && name != "DerivedData" && name != "build" && name != "dist"
         && name != "Pods"
  }

  lemma {:induction false} VisibleExactly(name: string)
    ensures Visible(name) <==> IsShownName(name)
  {
  }

  // ---------------------------------------------------------------------------------------------------
  // The shown entries
  // ---------------------------------------------------------------------------------------------------

  ghost predicate Ascending(at: seq<nat>, from: nat, end: nat) {
    (forall k :: 0 <= k < |at| ==> from <= at[k] < end) && (forall k, l :: 0 <= k < l < |at| ==> at[k] < at[l])
  }

  /** The entries at the given offsets have a shown name, and no others from `from` on. */
  ghost predicate PicksShown(items: seq<Item>, from: nat, at: seq<nat>) {
    forall i: nat :: from <= i < |items| ==> (IsShownName(items[i].name) <==> i in at)
  }

  ghost predicate AreAt(shown: seq<Item>, items: seq<Item>, at: seq<nat>) {
    |shown| == |at| && forall k :: 0 <= k < |at| ==> at[k] < |items| && shown[k] == items[at[k]]
  }

  /** Exactly the entries with a shown name are shown, in the order of the listing. */
  lemma {:induction false} ShownExactly(items: seq<Item>) returns (at: seq<nat>)
    ensures Ascending(at, 0, |items|) && PicksShown(items, 0, at) && AreAt(Shown(items), items, at)
  {
    at := ShownFrom(items, 0);
  }

  lemma {:induction false} ShownFrom(items: seq<Item>, from: nat) returns (at: seq<nat>)
    ensures Ascending(at, from, |items|) && PicksShown(items, from, at) && AreAt(Shown(items, from), items, at)
    decreases |items| - from
  {
    if |items| <= from {
      at := [];
    } else {
      var rest := ShownFrom(items, from + 1);
      VisibleExactly(items[from].name);
      at := if IsShownName(items[from].name) then [from] + rest else rest;
      OneMoreOffset(items, from, rest);
      if IsShownName(items[from].name) {
        AreAtCons(items[from], Shown(items, from + 1), items, from, rest);
      }
    }
  }

  lemma {:induction false} OneMoreOffset(items: seq<Item>, from: nat, rest: seq<nat>)
    requires from < |items| && Ascending(rest, from + 1, |items|) && PicksShown(items, from + 1, rest)
    ensures var at := if IsShownName(items[from].name) then [from] + rest else rest;
      Ascending(at, from, |items|) && PicksShown(items, from, at)
  {
    assert from !in rest;
  }

  lemma {:induction false} AreAtCons(first: Item, shown: seq<Item>, items: seq<Item>, from: nat, at: seq<nat>)
    requires from < |items| && items[from] == first && AreAt(shown, items, at)
    ensures AreAt([first] + shown, items, [from] + at)
  {
  }

  lemma {:induction false} ShownMembers(items: seq<Item>, item: Item)
    ensures item in Shown(items) <==> item in items && IsShownName(item.name)
  {
    var at := ShownExactly(items);
    if item in items && IsShownName(item.name) {
      var i :| 0 <= i < |items| && items[i] == item;
      assert i in at;
      var k :| 0 <= k < |at| && at[k] == i;
      assert Shown(items)[k] == item;
    }
  }

  // ---------------------------------------------------------------------------------------------------
  // The way to a row
  // ---------------------------------------------------------------------------------------------------

  /** Down from `path` by shown entries, through open directories. */
  ghost predicate IsTrail(fs: FileSystem, unfolded: set<string>, path: string, trail: seq<Item>)
    decreases |trail|
  {
    && trail != [] && path in fs && trail[0] in fs[path] && IsShownName(trail[0].name)
    && (|trail| > 1 ==>
          && trail[0].isDirectory && path + "/" + trail[0].name in unfolded
          && IsTrail(fs, unfolded, path + "/" + trail[0].name, trail[1..]))
  }

  function EndOf(path: string, trail: seq<Item>): string
    decreases |trail|
  {
    if trail == [] then path else EndOf(path + "/" + trail[0].name, trail[1..])
  }

  function RowOf(path: string, trail: seq<Item>, depth: nat): FileEntry
    requires trail != []
  {
    var end, last := EndOf(path, trail), trail[|trail| - 1];
    FileEntry(end, last.name, end, last.isDirectory, depth + |trail| - 1)
  }

  lemma {:induction false} TrailOf(fs: FileSystem, unfolded: set<string>, path: string, items: seq<Item>, depth: nat,
                                   r: FileEntry) returns (trail: seq<Item>)
    requires r in Rows(fs, unfolded, path, items, depth) && forall x <- items :: x in Items(fs, path)
    ensures IsTrail(fs, unfolded, path, trail) && r == RowOf(path, trail, depth)
    decreases Longer(unfolded, path), |items|
  {
    var child := path + "/" + items[0].name;
    assert items[0] in Items(fs, path);
    ShownMembers(fs[path], items[0]);
    if r == Entry(path, items[0], depth) {
      trail := [items[0]];
      assert EndOf(path, trail) == EndOf(child, []) == child;
    } else if r in Below(fs, unfolded, path, items[0], depth) {
      assert child in Longer(unfolded, path) && child !in Longer(unfolded, child);
      var rest := TrailOf(fs, unfolded, child, Items(fs, child), depth + 1, r);
      trail := [items[0]] + rest;
      assert trail[1..] == rest;
    } else {
      trail := TrailOf(fs, unfolded, path, items[1..], depth, r);
    }
  }

  lemma {:induction false} RowOfTrail(fs: FileSystem, unfolded: set<string>, path: string, items: seq<Item>, depth: nat,
                                      trail: seq<Item>)
    requires IsTrail(fs, unfolded, path, trail) && trail[0] in items
    ensures RowOf(path, trail, depth) in Rows(fs, unfolded, path, items, depth)
    decreases Longer(unfolded, path), |items|
  {
    if trail[0] == items[0] {
      var child := path + "/" + items[0].name;
      if |trail| == 1 {
        assert EndOf(path, trail) == EndOf(child, []) == child;
      } else {
        assert child in Longer(unfolded, path) && child !in Longer(unfolded, child);
        ShownMembers(fs[child], trail[1..][0]);
        RowOfTrail(fs, unfolded, child, Items(fs, child), depth + 1, trail[1..]);
        assert RowOf(path, trail, depth) == RowOf(child, trail[1..], depth + 1);
      }
    } else {
      RowOfTrail(fs, unfolded, path, items[1..], depth, trail);
    }
  }

  /** The rows of a tree are exactly the ends of the ways down, each with its name, its kind and its depth. */
  lemma {:induction false} RowsExactly(fs: FileSystem, unfolded: set<string>, root: string, r: FileEntry)
    ensures r in Preorder(fs, unfolded, root) <==>
            exists trail :: IsTrail(fs, unfolded, root, trail) && r == RowOf(root, trail, 0)
  {
    if r in Preorder(fs, unfolded, root) {
      var trail := TrailOf(fs, unfolded, root, Items(fs, root), 0, r);
    }
    if trail :| IsTrail(fs, unfolded, root, trail) && r == RowOf(root, trail, 0) {
      ShownMembers(fs[root], trail[0]);
      RowOfTrail(fs, unfolded, root, Items(fs, root), 0, trail);
    }
  }

  // ---------------------------------------------------------------------------------------------------
  // The order
  // ---------------------------------------------------------------------------------------------------

  /** What lies inside a row follows it, with nothing else between. */
  ghost predicate Nested(rows: seq<FileEntry>) {
    forall a, b :: 0 <= a < |rows| && 0 <= b < |rows| && Inside(rows[b].path, rows[a].path) ==>
      a < b && forall k :: a < k < b ==> Inside(rows[k].path, rows[a].path)
  }

  lemma {:induction false} NotInsideItself(p: string, q: string)
    requires Inside(p, q)
    ensures !Inside(q, p) && p != q
  {
  }

  lemma {:induction false} RowsNested(fs: FileSystem, unfolded: set<string>, path: string, items: seq<Item>, depth: nat)
    requires Proper(fs) && ProperItems(items)
    ensures Nested(Rows(fs, unfolded, path, items, depth))
    decreases Longer(unfolded, path), |items|
  {
    if items != [] {
      var e, below := Entry(path, items[0], depth), Below(fs, unfolded, path, items[0], depth);
      var rest := Rows(fs, unfolded, path, items[1..], depth);
      var child := path + "/" + items[0].name;
      RowsNested(fs, unfolded, path, items[1..], depth);
      if items[0].isDirectory && child in unfolded {
        assert child in Longer(unfolded, path) && child !in Longer(unfolded, child);
        ItemsProper(fs, child);
        RowsNested(fs, unfolded, child, Items(fs, child), depth + 1);
      }
      BelowInside(fs, unfolded, path, items[0], depth);
      RestApart(fs, unfolded, path, items, depth);
      NestedJoins(e, below, rest);
    }
  }

  /** Nothing of the later items lies at or inside the first, and nothing of the first inside a later row. */
  lemma {:induction false} RestApart(fs: FileSystem, unfolded: set<string>, path: string, items: seq<Item>, depth: nat)
    requires items != [] && ProperItems(items)
    ensures forall r, q :: r in Rows(fs, unfolded, path, items[1..], depth) && AtOrInside(q, path + "/" + items[0].name)
              ==> !AtOrInside(r.path, q) && !Inside(q, r.path)
  {
    var child := path + "/" + items[0].name;
    forall r, q | r in Rows(fs, unfolded, path, items[1..], depth) && AtOrInside(q, child)
      ensures !AtOrInside(r.path, q) && !Inside(q, r.path)
    {
      var k := RowsUnderItems(fs, unfolded, path, items[1..], depth, r);
      assert items[1..][k] == items[k + 1];
      if AtOrInside(r.path, q) {
        Through(r.path, q, child);
        ChildrenApart(path, items[0].name, items[k + 1].name, r.path);
      } else if Inside(q, r.path) {
        Through(q, r.path, path + "/" + items[k + 1].name);
        ChildrenApart(path, items[0].name, items[k + 1].name, q);
      }
    }
  }

  lemma {:induction false} Through(p: string, q: string, t: string)
    requires AtOrInside(p, q) && AtOrInside(q, t)
    ensures AtOrInside(p, t)
  {
    if p != q && q != t {
      assert q[..|t| + 1] == t + "/" && p[..|q|] == q;
      assert p[..|t| + 1] == t + "/";
    }
  }

  lemma {:induction false} NestedJoins(e: FileEntry, below: seq<FileEntry>, rest: seq<FileEntry>)
    requires Nested(below) && Nested(rest)
    requires forall r <- below :: Inside(r.path, e.path)
    requires forall r, q :: r in rest && AtOrInside(q, e.path) ==> !AtOrInside(r.path, q) && !Inside(q, r.path)
    ensures Nested([e] + below + rest)
  {
    NestedUnder(e, below);
    forall a, b | a in [e] + below && b in rest ensures !Inside(a.path, b.path) && !Inside(b.path, a.path)
    {
      assert AtOrInside(a.path, e.path);
    }
    NestedBeside([e] + below, rest);
  }

  lemma {:induction false} NestedUnder(e: FileEntry, below: seq<FileEntry>)
    requires Nested(below) && forall r <- below :: Inside(r.path, e.path)
    ensures Nested([e] + below)
  {
    forall r | r in below ensures !Inside(e.path, r.path)
    {
      NotInsideItself(r.path, e.path);
    }
    var rows := [e] + below;
    assert forall k :: 1 <= k < |rows| ==> rows[k] == below[k - 1] && rows[k] in below;
  }

  lemma {:induction false} NestedBeside(a: seq<FileEntry>, b: seq<FileEntry>)
    requires Nested(a) && Nested(b)
    requires forall x, y :: x in a && y in b ==> !Inside(x.path, y.path) && !Inside(y.path, x.path)
    ensures Nested(a + b)
  {
    var rows := a + b;
    assert forall k :: 0 <= k < |a| ==> rows[k] == a[k] && rows[k] in a;
    assert forall k :: |a| <= k < |rows| ==> rows[k] == b[k - |a|] && rows[k] in b;
  }

  predicate DirectlyIn(p: string, path: string) {
    Inside(p, path) && '/' !in p[|path| + 1..]
  }

  /** The rows right inside a directory. */
  function DirectRows(rows: seq<FileEntry>, path: string): seq<FileEntry> {
    if rows == [] then []
    else if DirectlyIn(rows[0].path, path) then [rows[0]] + DirectRows(rows[1..], path)
    else DirectRows(rows[1..], path)
  }

  lemma {:induction false} DirectAppend(a: seq<FileEntry>, b: seq<FileEntry>, path: string)
    ensures DirectRows(a + b, path) == DirectRows(a, path) + DirectRows(b, path)
    decreases |a|
  {
    if a == [] {
      assert a + b == b;
    } else {
      assert (a + b)[1..] == a[1..] + b;
      DirectAppend(a[1..], b, path);
    }
  }

  lemma {:induction false} DirectOfParts(e: FileEntry, below: seq<FileEntry>, rest: seq<FileEntry>, path: string)
    ensures DirectRows([e] + below + rest, path)
         == DirectRows([e], path) + DirectRows(below, path) + DirectRows(rest, path)
  {
    DirectAppend([e] + below, rest, path);
    DirectAppend([e], below, path);
  }

  lemma {:induction false} NoneDirect(rows: seq<FileEntry>, path: string)
    requires forall r <- rows :: !DirectlyIn(r.path, path)
    ensures DirectRows(rows, path) == []
  {
    if rows != [] {
      NoneDirect(rows[1..], path);
    }
  }

  lemma {:induction false} NoneInside(rows: seq<FileEntry>, path: string)
    requires forall r <- rows :: !Inside(r.path, path)
    ensures DirectRows(rows, path) == []
  {
    NoneDirect(rows, path);
  }

  lemma {:induction false} DirectOnes(path: string, name: string, p: string)
    requires '/' !in name
    ensures DirectlyIn(path + "/" + name, path)
    ensures Inside(p, path + "/" + name) ==> !DirectlyIn(p, path)
  {
    var child := path + "/" + name;
    assert child[|path| + 1..] == name;
    assert child[..|path| + 1] == path + "/";
    if Inside(p, child) {
      assert p[..|child| + 1] == child + "/";
      assert p[|path| + 1..][|name|] == p[|child|] == '/';
    }
  }

  /** Right inside the directory that is listed are its own entries, in order. */
  lemma {:induction false} TopRows(fs: FileSystem, unfolded: set<string>, path: string, items: seq<Item>, depth: nat)
    requires ProperItems(items)
    ensures DirectRows(Rows(fs, unfolded, path, items, depth), path) == NewEntries(path, items, depth)
    decreases |items|
  {
    if items != [] {
      var e, below := Entry(path, items[0], depth), Below(fs, unfolded, path, items[0], depth);
      var rest := Rows(fs, unfolded, path, items[1..], depth);
      TopRows(fs, unfolded, path, items[1..], depth);
      NothingDirectBelow(fs, unfolded, path, items[0], depth);
      DirectOnes(path, items[0].name, path);
      DirectOfParts(e, below, rest, path);
      assert DirectRows([e], path) == [e];
      EntriesCons(path, items, depth);
    }
  }

  lemma {:induction false} NothingDirectBelow(fs: FileSystem, unfolded: set<string>, path: string, item: Item,
                                              depth: nat)
    requires '/' !in item.name
    ensures DirectRows(Below(fs, unfolded, path, item, depth), path) == []
  {
    var below := Below(fs, unfolded, path, item, depth);
    BelowInside(fs, unfolded, path, item, depth);
    forall r | r in below ensures !DirectlyIn(r.path, path)
    {
      DirectOnes(path, item.name, r.path);
    }
    NoneDirect(below, path);
  }

  lemma {:induction false} EntriesCons(path: string, items: seq<Item>, depth: nat)
    requires items != []
    ensures NewEntries(path, items, depth) == [Entry(path, items[0], depth)] + NewEntries(path, items[1..], depth)
  {
  }

  /** And right inside an open directory of the tree are the entries it shows, in order, one level deeper. */
  lemma {:induction false} OpenRows(fs: FileSystem, unfolded: set<string>, path: string, items: seq<Item>, depth: nat,
                                    r: FileEntry)
    requires Proper(fs) && ProperItems(items) && r in Rows(fs, unfolded, path, items, depth)
    requires r.isDirectory && r.path in unfolded
    ensures DirectRows(Rows(fs, unfolded, path, items, depth), r.path)
         == NewEntries(r.path, Items(fs, r.path), r.depth + 1)
    decreases Longer(unfolded, path), |items|
  {
    var e, below := Entry(path, items[0], depth), Below(fs, unfolded, path, items[0], depth);
    var rest := Rows(fs, unfolded, path, items[1..], depth);
    DirectOfParts(e, below, rest, r.path);
    NestedParts(fs, unfolded, path, items, depth, r);
    if r == e || r in below {
      OpenBelow(fs, unfolded, path, items[0], depth, r);
    } else {
      OpenRows(fs, unfolded, path, items[1..], depth, r);
    }
  }

  lemma {:induction false} OpenBelow(fs: FileSystem, unfolded: set<string>, path: string, item: Item, depth: nat,
                                     r: FileEntry)
    requires Proper(fs) && r.isDirectory && r.path in unfolded
    requires r == Entry(path, item, depth) || r in Below(fs, unfolded, path, item, depth)
    ensures DirectRows(Below(fs, unfolded, path, item, depth), r.path)
         == NewEntries(r.path, Items(fs, r.path), r.depth + 1)
    decreases Longer(unfolded, path), 0
  {
    var child := path + "/" + item.name;
    assert child in Longer(unfolded, path) && child !in Longer(unfolded, child);
    ItemsProper(fs, child);
    if r == Entry(path, item, depth) {
      TopRows(fs, unfolded, child, Items(fs, child), depth + 1);
    } else {
      OpenRows(fs, unfolded, child, Items(fs, child), depth + 1, r);
    }
  }

  /** Nothing outside the part that holds a row lies inside it. */
  lemma {:induction false} NestedParts(fs: FileSystem, unfolded: set<string>, path: string, items: seq<Item>,
                                       depth: nat, r: FileEntry)
    requires ProperItems(items) && r in Rows(fs, unfolded, path, items, depth)
    ensures
      var e, below := Entry(path, items[0], depth), Below(fs, unfolded, path, items[0], depth);
      var rest := Rows(fs, unfolded, path, items[1..], depth);
      && DirectRows([e], r.path) == []
      && (r == e || r in below ==> DirectRows(rest, r.path) == [])
      && (r != e && r !in below ==> DirectRows(below, r.path) == [])
  {
    var e, below := Entry(path, items[0], depth), Below(fs, unfolded, path, items[0], depth);
    var rest := Rows(fs, unfolded, path, items[1..], depth);
    BelowInside(fs, unfolded, path, items[0], depth);
    RestApart(fs, unfolded, path, items, depth);
    assert r == e || r in below ==> AtOrInside(r.path, e.path);
    assert AtOrInside(e.path, e.path) && forall b <- below :: AtOrInside(b.path, e.path);
    assert !Inside(e.path, r.path) by {
      if r in below {
        NotInsideItself(r.path, e.path);
      }
    }
    NoneInside([e], r.path);
    if r == e || r in below {
      forall x | x in rest ensures !Inside(x.path, r.path)
      {
        assert !AtOrInside(x.path, r.path);
      }
      NoneInside(rest, r.path);
    } else {
      assert r in rest;
      NoneInside(below, r.path);
    }
  }

  /**
   The order of a tree: what lies inside a row follows it with nothing else between, and right inside the root and each
   open directory are the entries it shows, in the order of its listing.
   */
  lemma {:induction false} OrderExactly(fs: FileSystem, unfolded: set<string>, root: string)
    requires Proper(fs)
    ensures
      var rows := Preorder(fs, unfolded, root);
      && Nested(rows) && DirectRows(rows, root) == NewEntries(root, Items(fs, root), 0)
      && forall r <- rows :: r.isDirectory && r.path in unfolded ==>
           DirectRows(rows, r.path) == NewEntries(r.path, Items(fs, r.path), r.depth + 1)
  {
    var rows := Preorder(fs, unfolded, root);
    ItemsProper(fs, root);
    RowsNested(fs, unfolded, root, Items(fs, root), 0);
    TopRows(fs, unfolded, root, Items(fs, root), 0);
    forall r | r in rows && r.isDirectory && r.path in unfolded
      ensures DirectRows(rows, r.path) == NewEntries(r.path, Items(fs, r.path), r.depth + 1)
    {
      OpenRows(fs, unfolded, root, Items(fs, root), 0, r);
    }
  }

  // ---------------------------------------------------------------------------------------------------
  // Loading a directory
  // ---------------------------------------------------------------------------------------------------

  /** One level: a row for each shown entry, in order. */
  ghost predicate IsLevel(level: seq<FileEntry>, items: seq<Item>, path: string, depth: nat) {
    exists at: seq<nat> ::
      Ascending(at, 0, |items|) && PicksShown(items, 0, at) && RowsAt(level, items, at, path, depth)
  }

  ghost predicate RowsAt(level: seq<FileEntry>, items: seq<Item>, at: seq<nat>, path: string, depth: nat) {
    && |level| == |at|
    && forall k :: 0 <= k < |at| ==> at[k] < |items| && IsRowOf(level[k], items[at[k]], path, depth)
  }

  predicate IsRowOf(row: FileEntry, item: Item, path: string, depth: nat) {
    && row.path == path + "/" + item.name && row.id == row.path && row.name == item.name
    && row.isDirectory == item.isDirectory && row.depth == depth
  }

  predicate IsFirstRow(rows: seq<FileEntry>, id: string, idx: nat) {
    idx < |rows| && rows[idx].id == id && forall j :: 0 <= j < idx ==> rows[j].id != id
  }

  predicate IsSpliced(after: seq<FileEntry>, rows: seq<FileEntry>, idx: nat, level: seq<FileEntry>) {
    idx < |rows| && after == rows[..idx + 1] + level + rows[idx + 1..]
  }

  /**
   Loading a directory: if it cannot be read nothing changes; its level is put right behind the first row with the
   identifier given; without such a row the level is the whole list.
   */
  lemma {:induction false} LoadedExactly(fs: FileSystem, entries: seq<FileEntry>, path: string, depth: nat,
                                         id: string, idx: nat)
    requires path in fs
    ensures IsFirstRow(entries, id, idx) ==>
      exists level :: IsLevel(level, fs[path], path, depth)
        && IsSpliced(Loaded(fs, entries, path, depth, Some(id)), entries, idx, level)
    ensures (forall j :: 0 <= j < |entries| ==> entries[j].id != id) ==>
      IsLevel(Loaded(fs, entries, path, depth, Some(id)), fs[path], path, depth)
    ensures IsLevel(Loaded(fs, entries, path, depth, None), fs[path], path, depth)
  {
    var level := NewEntries(path, Items(fs, path), depth);
    var at := ShownExactly(fs[path]);
    assert RowsAt(level, fs[path], at, path, depth);
    if IsFirstRow(entries, id, idx) {
      InsertAfterAt(entries, id, level, idx);
      assert HasRow(entries, id);
      assert IsSpliced(Loaded(fs, entries, path, depth, Some(id)), entries, idx, level);
    }
  }

  lemma {:induction false} UnreadableChangesNothing(fs: FileSystem, entries: seq<FileEntry>, path: string, depth: nat,
                                                    id: Option<string>)
    requires path !in fs
    ensures Loaded(fs, entries, path, depth, id) == entries
  {
  }

  /** The rows whose identifier does not start with the path and a separator, in order. */
  ghost predicate KeepsOutside(kept: seq<FileEntry>, rows: seq<FileEntry>, path: string, at: seq<nat>) {
    && Ascending(at, 0, |rows|) && |kept| == |at| && (forall k :: 0 <= k < |at| ==> kept[k] == rows[at[k]])
    && forall i: nat :: i < |rows| ==> (i in at <==> !(path + "/" <= rows[i].id))
  }

  lemma {:induction false} WithoutSnoc(rows: seq<FileEntry>, last: FileEntry, path: string)
    ensures Without(rows + [last], path) == Without(rows, path) + if Inside(last.id, path) then [] else [last]
  {
    WithoutAppend(rows, [last], path);
  }

  lemma {:induction false} KeptExactly(rows: seq<FileEntry>, path: string) returns (at: seq<nat>)
    ensures KeepsOutside(Without(rows, path), rows, path, at)
    decreases |rows|
  {
    if rows == [] {
      at := [];
    } else {
      var n := |rows| - 1;
      at := KeptExactly(rows[..n], path);
      WithoutSnoc(rows[..n], rows[n], path);
      assert rows[..n] + [rows[n]] == rows && n !in at;
      assert forall i: nat :: i < n ==> rows[..n][i] == rows[i];
      if !Inside(rows[n].id, path) {
        at := at + [n];
      }
    }
  }

  /**
   A tap on a marked directory takes its mark and the rows inside it; on any other it sets the mark, whether or not it
   can be read, and loads it one level deeper behind its row.
   */
  lemma {:induction false} TapExactly(fs: FileSystem, v: Sidebar, e: FileEntry)
    ensures
      var t := Toggled(fs, v, e);
      && (e.path in v.expandedDirs ==>
            t.expandedDirs == v.expandedDirs - {e.path}
            && exists at :: KeepsOutside(t.entries, v.entries, e.path, at))
      && (e.path !in v.expandedDirs ==>
            t.expandedDirs == v.expandedDirs + {e.path}
            && t.entries == Loaded(fs, v.entries, e.path, e.depth + 1, Some(e.id)))
  {
    var at := KeptExactly(v.entries, e.path);
  }

  /** On appearing the marks stay, and the list becomes the top level if the root can be read. */
  lemma {:induction false} AppearExactly(fs: FileSystem, root: string, v: Sidebar)
    ensures
      var t := Appeared(fs, root, v);
      && t.expandedDirs == v.expandedDirs
      && (if root in fs then IsLevel(t.entries, fs[root], root, 0) else t.entries == v.entries)
  {
    if root in fs {
      LoadedExactly(fs, v.entries, root, 0, "", 0);
    }
  }
}
