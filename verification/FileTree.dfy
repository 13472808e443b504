/** The file sidebar, a tree that is kept as a flat list. */
module FileTree {
  // It is a flat list of rows that has to stay the preorder of a partly open tree.

  import opened Options

  datatype Item = Item(name: string, isDirectory: bool)

  datatype FileEntry = FileEntry(id: string, name: string, path: string, isDirectory: bool, depth: nat)

  /** The readable directories and their contents, in the order the sidebar sorts them. */
  type FileSystem = map<string, seq<Item>>

  const SKIP_DIRS := {
    ".git", ".build", ".senkani", "node_modules", "__pycache__",
    "DerivedData", ".swiftpm", "build", "dist", ".next", "Pods"
  }

  predicate Visible(name: string) {
    ("." <= name ==> name == ".claude") && name !in SKIP_DIRS
  }

  /** The shown items among `items[from..]`. */
  function Shown(items: seq<Item>, from: nat := 0): seq<Item>
    decreases |items| - from
  {
    if |items| <= from then []
    else if Visible(items[from].name) then [items[from]] + Shown(items, from + 1)
    else Shown(items, from + 1)
  }

  /** What is shown of a directory; nothing if it cannot be read. */
  function Items(fs: FileSystem, path: string): seq<Item> {
    if path in fs then Shown(fs[path]) else []
  }

  function Entry(path: string, item: Item, depth: nat): FileEntry {
    var full := path + "/" + item.name;
    FileEntry(full, item.name, full, item.isDirectory, depth)
  }

  function NewEntries(path: string, items: seq<Item>, depth: nat): (r: seq<FileEntry>)
    ensures |r| == |items| && forall i :: 0 <= i < |r| ==> r[i] == Entry(path, items[i], depth)
  {
    seq(|items|, i requires 0 <= i < |items| => Entry(path, items[i], depth))
  }

  // ---------------------------------------------------------------------------------------------------
  // The tree
  // ---------------------------------------------------------------------------------------------------

  function Longer(unfolded: set<string>, path: string): set<string> {
    set p | p in unfolded && |p| > |path|
  }

  /** The preorder rows of the given items of `path`, descending into the directories of `unfolded`. */
  function Rows(fs: FileSystem, unfolded: set<string>, path: string, items: seq<Item>, depth: nat): seq<FileEntry>
    decreases Longer(unfolded, path), |items|
  {
    if items == [] then []
    else
      var e := Entry(path, items[0], depth);
      [e] + Below(fs, unfolded, path, items[0], depth) + Rows(fs, unfolded, path, items[1..], depth)
  }

  /** The rows under one item: those of an open directory. */
  function Below(fs: FileSystem, unfolded: set<string>, path: string, item: Item, depth: nat): seq<FileEntry>
    decreases Longer(unfolded, path), 0
  {
    var child := path + "/" + item.name;
    if item.isDirectory && child in unfolded then
      assert child in Longer(unfolded, path) && child !in Longer(unfolded, child);
      Rows(fs, unfolded, child, Items(fs, child), depth + 1)
    else []
  }

  function Preorder(fs: FileSystem, unfolded: set<string>, root: string): seq<FileEntry> {
    Rows(fs, unfolded, root, Items(fs, root), 0)
  }

  /** Names within a directory are distinct, not empty, and contain no separator. */
  ghost predicate ProperItems(items: seq<Item>) {
    && (forall i :: 0 <= i < |items| ==> items[i].name != [] && '/' !in items[i].name)
    && (forall i, j :: 0 <= i < j < |items| ==> items[i].name != items[j].name)
  }

  ghost predicate Proper(fs: FileSystem) {
    forall path <- fs :: ProperItems(fs[path])
  }

  // ---------------------------------------------------------------------------------------------------
  // Paths
  // ---------------------------------------------------------------------------------------------------

  /** `hasPrefix(path + "/")`: strictly inside the directory. */
  predicate Inside(p: string, path: string) {
    path + "/" <= p
  }

  predicate AtOrInside(p: string, path: string) {
    p == path || Inside(p, path)
  }

  lemma {:induction false} ShorterSibling(path: string, m: string, n: string, p: string)
    requires |m| < |n| && AtOrInside(p, path + "/" + m) && AtOrInside(p, path + "/" + n)
    ensures n[|m|] == '/'
  {
    var x, y := path + "/" + m, path + "/" + n;
    assert p[..|y|] == y;
    assert (x + "/")[|x|] == '/' && p[..|x| + 1] == x + "/";
    assert p[|x|] == p[..|x| + 1][|x|];
    assert p[|x|] == y[|x|] == n[|m|];
  }

  /** Two different children of a directory have nothing in common below them. */
  lemma {:induction false} ChildrenApart(path: string, m: string, n: string, p: string)
    requires '/' !in m && '/' !in n
    requires AtOrInside(p, path + "/" + m) && AtOrInside(p, path + "/" + n)
    ensures m == n
  {
    if |m| < |n| {
      ShorterSibling(path, m, n, p);
    } else if |n| < |m| {
      ShorterSibling(path, n, m, p);
    } else {
      var base := path + "/";
      var x, y := base + m, base + n;
      assert p[..|x|] == x && p[..|y|] == y;
      assert m == x[|base|..] && n == y[|base|..];
    }
  }

  /** A path below a directory and a child of it: the same, one inside the other, or apart. */
  lemma {:induction false} InsideChild(path: string, m: string, t: string)
    requires Inside(t, path + "/" + m)
    ensures Inside(t, path) && t != path + "/" + m
  {
    var base := path + "/";
    assert (base + m)[..|base|] == base;
    assert t[..|base|] == base;
  }

  // ---------------------------------------------------------------------------------------------------
  // Rows lie where they should
  // ---------------------------------------------------------------------------------------------------

  lemma {:induction false} RowsInside(fs: FileSystem, unfolded: set<string>, path: string, items: seq<Item>, depth: nat)
    ensures forall r <- Rows(fs, unfolded, path, items, depth) ::
      Inside(r.path, path) && r.id == r.path && r.depth >= depth
    decreases Longer(unfolded, path), |items|
  {
    if items != [] {
      BelowInside(fs, unfolded, path, items[0], depth);
      RowsInside(fs, unfolded, path, items[1..], depth);
      var child := path + "/" + items[0].name;
      assert child[..|path| + 1] == path + "/";
      forall r | r in Below(fs, unfolded, path, items[0], depth) ensures Inside(r.path, path)
      {
        InsideChild(path, items[0].name, r.path);
      }
    }
  }

  lemma {:induction false} BelowInside(fs: FileSystem, unfolded: set<string>, path: string, item: Item, depth: nat)
    ensures forall r <- Below(fs, unfolded, path, item, depth) ::
      Inside(r.path, path + "/" + item.name) && r.id == r.path && r.depth > depth
    decreases Longer(unfolded, path), 0
  {
    var child := path + "/" + item.name;
    if item.isDirectory && child in unfolded {
      assert child in Longer(unfolded, path) && child !in Longer(unfolded, child);
      RowsInside(fs, unfolded, child, Items(fs, child), depth + 1);
    }
  }

  /** A row of some items lies at or below the child of one of them. */
  lemma {:induction false} RowsUnderItems(fs: FileSystem, unfolded: set<string>, path: string, items: seq<Item>,
                                          depth: nat, r: FileEntry) returns (k: nat)
    requires r in Rows(fs, unfolded, path, items, depth)
    ensures k < |items| && AtOrInside(r.path, path + "/" + items[k].name)
    decreases |items|
  {
    var e := Entry(path, items[0], depth);
    if r == e {
      k := 0;
    } else if r in Below(fs, unfolded, path, items[0], depth) {
      BelowInside(fs, unfolded, path, items[0], depth);
      k := 0;
    } else {
      k := RowsUnderItems(fs, unfolded, path, items[1..], depth, r);
      k := k + 1;
    }
  }

  /** Only what is open below the given items matters. */
  lemma {:induction false} RowsFrame(fs: FileSystem, a: set<string>, b: set<string>, path: string, items: seq<Item>,
                                     depth: nat)
    requires forall q, k :: 0 <= k < |items| && AtOrInside(q, path + "/" + items[k].name) ==> (q in a <==> q in b)
    ensures Rows(fs, a, path, items, depth) == Rows(fs, b, path, items, depth)
    decreases Longer(a, path), |items|
  {
    if items != [] {
      BelowFrame(fs, a, b, path, items[0], depth);
      forall q, k | 0 <= k < |items[1..]| && AtOrInside(q, path + "/" + items[1..][k].name)
        ensures q in a <==> q in b
      {
        assert items[1..][k] == items[k + 1];
      }
      RowsFrame(fs, a, b, path, items[1..], depth);
    }
  }

  lemma {:induction false} BelowFrame(fs: FileSystem, a: set<string>, b: set<string>, path: string, item: Item,
                                      depth: nat)
    requires forall q :: AtOrInside(q, path + "/" + item.name) ==> (q in a <==> q in b)
    ensures Below(fs, a, path, item, depth) == Below(fs, b, path, item, depth)
    decreases Longer(a, path), 0
  {
    var child := path + "/" + item.name;
    assert AtOrInside(child, child);
    if item.isDirectory && child in a {
      assert child in Longer(a, path) && child !in Longer(a, child);
      forall q, k | 0 <= k < |Items(fs, child)| && AtOrInside(q, child + "/" + Items(fs, child)[k].name)
        ensures q in a <==> q in b
      {
        GrandchildInside(child, Items(fs, child)[k].name, q);
      }
      RowsFrame(fs, a, b, child, Items(fs, child), depth + 1);
    }
  }

  lemma {:induction false} GrandchildInside(path: string, m: string, q: string)
    requires AtOrInside(q, path + "/" + m)
    ensures Inside(q, path)
  {
    var x := path + "/" + m;
    assert x[..|path| + 1] == path + "/";
    if q != x {
      InsideChild(path, m, q);
    }
  }

  // ---------------------------------------------------------------------------------------------------
  // Where a path lies relative to a child
  // ---------------------------------------------------------------------------------------------------

  ghost predicate Apart(t: string, child: string) {
    forall q :: !(AtOrInside(q, t) && AtOrInside(q, child))
  }

  /** The first name of `t` below `path`. */
  function FirstName(t: string, from: nat): (end: nat)
    requires from <= |t|
    ensures from <= end <= |t| && (end < |t| ==> t[end] == '/')
    ensures forall i :: from <= i < end ==> t[i] != '/'
    decreases |t| - from
  {
    if from == |t| || t[from] == '/' then from else FirstName(t, from + 1)
  }

  lemma {:induction false} Trichotomy(path: string, name: string, t: string)
    requires Inside(t, path) && '/' !in name
    ensures var child := path + "/" + name; t == child || Inside(t, child) || Apart(t, child)
  {
    var base, child := path + "/", path + "/" + name;
    var end := FirstName(t, |base|);
    var first := t[|base|..end];
    assert t[..|base|] == base;
    assert t[..end] == base + first;
    assert AtOrInside(t, base + first) by {
      if end < |t| {
        assert t[..end + 1] == base + first + "/";
      } else {
        assert t == t[..end];
      }
    }
    if !AtOrInside(t, child) {
      forall q ensures !(AtOrInside(q, t) && AtOrInside(q, child))
      {
        if AtOrInside(q, t) && AtOrInside(q, child) {
          ChildrenApart(path, first, name, q);
          assert false;
        }
      }
    }
  }

  // ---------------------------------------------------------------------------------------------------
  // Collapsing
  // ---------------------------------------------------------------------------------------------------

  /** `removeAll { $0.id.hasPrefix(path + "/") }`. */
  function Without(rows: seq<FileEntry>, path: string): seq<FileEntry> {
    if rows == [] then []
    else if Inside(rows[0].id, path) then Without(rows[1..], path)
    else [rows[0]] + Without(rows[1..], path)
  }

  lemma {:induction false} WithoutAppend(a: seq<FileEntry>, b: seq<FileEntry>, path: string)
    ensures Without(a + b, path) == Without(a, path) + Without(b, path)
    decreases |a|
  {
    if a == [] {
      assert a + b == b;
    } else {
      assert (a + b)[1..] == a[1..] + b;
      WithoutAppend(a[1..], b, path);
    }
  }

  lemma {:induction false} WithoutAll(a: seq<FileEntry>, path: string)
    requires forall r <- a :: Inside(r.id, path)
    ensures Without(a, path) == []
  {
    if a != [] {
      WithoutAll(a[1..], path);
    }
  }

  lemma {:induction false} WithoutNone(a: seq<FileEntry>, path: string)
    requires forall r <- a :: !Inside(r.id, path)
    ensures Without(a, path) == a
  {
    if a != [] {
      WithoutNone(a[1..], path);
    }
  }

  /** The open directories that are neither `path` nor inside it. */
  function ClosedAt(unfolded: set<string>, path: string): set<string> {
    set q | q in unfolded && !AtOrInside(q, path)
  }

  lemma {:induction false} ShownProper(items: seq<Item>, from: nat)
    requires ProperItems(items)
    ensures ProperItems(Shown(items, from))
    ensures forall x <- Shown(items, from) :: exists i :: from <= i < |items| && items[i] == x
    decreases |items| - from
  {
    if from < |items| {
      ShownProper(items, from + 1);
      var rest := Shown(items, from + 1);
      forall j | 0 <= j < |rest| ensures rest[j].name != items[from].name
      {
        assert rest[j] in rest;
      }
    }
  }

  lemma {:induction false} ItemsProper(fs: FileSystem, path: string)
    requires Proper(fs)
    ensures ProperItems(Items(fs, path))
  {
    if path in fs {
      ShownProper(fs[path], 0);
    }
  }

  /** Deleting the rows inside `t` by prefix is closing `t` and everything open inside it. */
  lemma {:induction false} WithoutIsClosing(fs: FileSystem, unfolded: set<string>, path: string, items: seq<Item>,
                                            depth: nat, t: string)
    requires Proper(fs) && ProperItems(items) && Inside(t, path)
    ensures Without(Rows(fs, unfolded, path, items, depth), t) == Rows(fs, ClosedAt(unfolded, t), path, items, depth)
    decreases Longer(unfolded, path), |items|
  {
    if items != [] {
      var e, below := Entry(path, items[0], depth), Below(fs, unfolded, path, items[0], depth);
      var rest := Rows(fs, unfolded, path, items[1..], depth);
      WithoutIsClosing(fs, unfolded, path, items[1..], depth, t);
      BelowClosing(fs, unfolded, path, items[0], depth, t);
      NotInsideDeeper(path, items[0].name, t);
      WithoutAppend([e] + below, rest, t);
      WithoutAppend([e], below, t);
      assert Without([e], t) == [e];
    }
  }

  /** A child of `path` does not lie inside something that lies inside `path`. */
  lemma {:induction false} NotInsideDeeper(path: string, name: string, t: string)
    requires Inside(t, path) && '/' !in name
    ensures !Inside(path + "/" + name, t)
  {
    if Inside(path + "/" + name, t) {
      SeparatorInName(path, name, t);
    }
  }

  lemma {:induction false} SeparatorInName(path: string, name: string, t: string)
    requires Inside(t, path) && Inside(path + "/" + name, t)
    ensures '/' in name
  {
    var child := path + "/" + name;
    assert child[..|t| + 1] == t + "/";
    assert child[|t|] == child[..|t| + 1][|t|] == '/';
    assert child[|t|] == name[|t| - |path| - 1];
  }

  lemma {:induction false} BelowClosing(fs: FileSystem, unfolded: set<string>, path: string, item: Item, depth: nat,
                                        t: string)
    requires Proper(fs) && item.name != [] && '/' !in item.name && Inside(t, path)
    ensures Without(Below(fs, unfolded, path, item, depth), t) == Below(fs, ClosedAt(unfolded, t), path, item, depth)
    decreases Longer(unfolded, path), 0
  {
    var child, below := path + "/" + item.name, Below(fs, unfolded, path, item, depth);
    Trichotomy(path, item.name, t);
    BelowInside(fs, unfolded, path, item, depth);
    if t == child {
      WithoutAll(below, t);
    } else if Inside(t, child) {
      assert !AtOrInside(child, t);
      if item.isDirectory && child in unfolded {
        assert child in Longer(unfolded, path) && child !in Longer(unfolded, child);
        ItemsProper(fs, child);
        WithoutIsClosing(fs, unfolded, child, Items(fs, child), depth + 1, t);
      }
    } else {
      forall r | r in below ensures !Inside(r.id, t)
      {
        assert AtOrInside(r.path, child);
      }
      WithoutNone(below, t);
      BelowFrame(fs, unfolded, ClosedAt(unfolded, t), path, item, depth);
    }
  }

  // ---------------------------------------------------------------------------------------------------
  // Expanding
  // ---------------------------------------------------------------------------------------------------

  /** `insert(contentsOf:at: firstIndex + 1)`: after the first row with the identifier. */
  function InsertAfter(rows: seq<FileEntry>, id: string, added: seq<FileEntry>): seq<FileEntry> {
    if rows == [] then []
    else if rows[0].id == id then [rows[0]] + added + rows[1..]
    else [rows[0]] + InsertAfter(rows[1..], id, added)
  }

  ghost predicate HasRow(rows: seq<FileEntry>, id: string) {
    exists r :: r in rows && r.id == id
  }

  lemma {:induction false} InsertAfterAppend(a: seq<FileEntry>, b: seq<FileEntry>, id: string, added: seq<FileEntry>)
    ensures HasRow(a, id) ==> InsertAfter(a + b, id, added) == InsertAfter(a, id, added) + b
    ensures !HasRow(a, id) ==> InsertAfter(a + b, id, added) == a + InsertAfter(b, id, added)
    decreases |a|
  {
    if a == [] {
      assert a + b == b;
    } else {
      var first, rest := [a[0]], a[1..];
      assert a == first + rest;
      assert (a + b)[1..] == rest + b;
      if a[0].id == id {
        assert HasRow(a, id);
        assert first + added + (rest + b) == (first + added + rest) + b;
      } else {
        InsertAfterAppend(rest, b, id, added);
        assert HasRow(a, id) <==> HasRow(rest, id);
        if HasRow(rest, id) {
          assert first + (InsertAfter(rest, id, added) + b) == (first + InsertAfter(rest, id, added)) + b;
        } else {
          assert first + (rest + InsertAfter(b, id, added)) == a + InsertAfter(b, id, added);
        }
      }
    }
  }

  /** A directory with nothing open inside it shows one level. */
  lemma {:induction false} OneLevel(fs: FileSystem, unfolded: set<string>, path: string, items: seq<Item>, depth: nat)
    requires forall q <- unfolded :: !Inside(q, path)
    ensures Rows(fs, unfolded, path, items, depth) == NewEntries(path, items, depth)
    decreases |items|
  {
    if items != [] {
      OneLevel(fs, unfolded, path, items[1..], depth);
      var child := path + "/" + items[0].name;
      assert child[..|path| + 1] == path + "/";
      assert Inside(child, path);
      assert Below(fs, unfolded, path, items[0], depth) == [];
      assert [Entry(path, items[0], depth)] + NewEntries(path, items[1..], depth) == NewEntries(path, items, depth);
    }
  }

  /** A row is found in the part of the tree its path belongs to. */
  lemma {:induction false} NotInRest(fs: FileSystem, unfolded: set<string>, path: string, items: seq<Item>, depth: nat,
                                     t: string)
    requires ProperItems(items) && items != [] && AtOrInside(t, path + "/" + items[0].name)
    ensures !HasRow(Rows(fs, unfolded, path, items[1..], depth), t)
  {
    var rest := Rows(fs, unfolded, path, items[1..], depth);
    if r :| r in rest && r.id == t {
      RowsInside(fs, unfolded, path, items[1..], depth);
      var k := RowsUnderItems(fs, unfolded, path, items[1..], depth, r);
      ChildrenApart(path, items[0].name, items[k + 1].name, t);
      assert false;
    }
  }

  lemma {:induction false} NotInBelow(fs: FileSystem, unfolded: set<string>, path: string, item: Item, depth: nat,
                                      t: string)
    requires !Inside(t, path + "/" + item.name)
    ensures !HasRow(Below(fs, unfolded, path, item, depth), t)
  {
    BelowInside(fs, unfolded, path, item, depth);
  }

  /** Opening one directory is inserting its children, one level deeper, right after its row. */
  lemma {:induction false} InsertIsOpening(fs: FileSystem, unfolded: set<string>, path: string, items: seq<Item>,
                                           depth: nat, e: FileEntry)
    requires Proper(fs) && ProperItems(items) && e in Rows(fs, unfolded, path, items, depth) && e.isDirectory
    requires forall q <- unfolded :: !AtOrInside(q, e.path)
    ensures InsertAfter(Rows(fs, unfolded, path, items, depth), e.id,
                        NewEntries(e.path, Items(fs, e.path), e.depth + 1))
         == Rows(fs, unfolded + {e.path}, path, items, depth)
    decreases Longer(unfolded, path), |items|
  {
    var t, added := e.path, NewEntries(e.path, Items(fs, e.path), e.depth + 1);
    var e0, below := Entry(path, items[0], depth), Below(fs, unfolded, path, items[0], depth);
    var rest, child := Rows(fs, unfolded, path, items[1..], depth), path + "/" + items[0].name;
    RowsInside(fs, unfolded, path, items, depth);
    Trichotomy(path, items[0].name, t);
    InsertAfterAppend([e0] + below, rest, e.id, added);
    InsertAfterAppend([e0], below, e.id, added);
    if t == child {
      OpeningHere(fs, unfolded, path, items, depth, e);
    } else if Inside(t, child) {
      OpeningBelow(fs, unfolded, path, items, depth, e);
    } else {
      OpeningInRest(fs, unfolded, path, items, depth, e);
    }
  }

  lemma {:induction false} OpeningHere(fs: FileSystem, unfolded: set<string>, path: string, items: seq<Item>,
                                       depth: nat, e: FileEntry)
    requires Proper(fs) && ProperItems(items) && e in Rows(fs, unfolded, path, items, depth) && e.isDirectory
    requires forall q <- unfolded :: !AtOrInside(q, e.path)
    requires items != [] && e.path == e.id == path + "/" + items[0].name
    ensures InsertAfter(Rows(fs, unfolded, path, items, depth), e.id,
                        NewEntries(e.path, Items(fs, e.path), e.depth + 1))
         == Rows(fs, unfolded + {e.path}, path, items, depth)
  {
    var t, added := e.path, NewEntries(e.path, Items(fs, e.path), e.depth + 1);
    var rest := Rows(fs, unfolded, path, items[1..], depth);
    FirstRow(fs, unfolded, path, items, depth, e);
    OneLevel(fs, unfolded + {t}, t, Items(fs, t), depth + 1);
    assert Below(fs, unfolded + {t}, path, items[0], depth) == added;
    RestFrame(fs, unfolded, path, items, depth, t);
    assert Rows(fs, unfolded + {t}, path, items, depth) == [e] + added + rest;
    assert ([e] + rest)[1..] == rest;
  }

  /** The row of the first item, closed. */
  lemma {:induction false} FirstRow(fs: FileSystem, unfolded: set<string>, path: string, items: seq<Item>, depth: nat,
                                    e: FileEntry)
    requires ProperItems(items) && items != [] && e in Rows(fs, unfolded, path, items, depth)
    requires e.path == e.id == path + "/" + items[0].name && e.path !in unfolded
    ensures e == Entry(path, items[0], depth)
    ensures Rows(fs, unfolded, path, items, depth) == [e] + Rows(fs, unfolded, path, items[1..], depth)
  {
    var rest := Rows(fs, unfolded, path, items[1..], depth);
    NotInRest(fs, unfolded, path, items, depth, e.path);
    assert Below(fs, unfolded, path, items[0], depth) == [];
    assert [Entry(path, items[0], depth)] + [] + rest == [Entry(path, items[0], depth)] + rest;
  }

  /** Opening something at or below the first item leaves the rows of the others alone. */
  lemma {:induction false} RestFrame(fs: FileSystem, unfolded: set<string>, path: string, items: seq<Item>, depth: nat,
                                     t: string)
    requires ProperItems(items) && items != [] && AtOrInside(t, path + "/" + items[0].name)
    ensures Rows(fs, unfolded, path, items[1..], depth) == Rows(fs, unfolded + {t}, path, items[1..], depth)
  {
    forall q, k | 0 <= k < |items[1..]| && AtOrInside(q, path + "/" + items[1..][k].name)
      ensures q in unfolded <==> q in unfolded + {t}
    {
      if q == t {
        ChildrenApart(path, items[0].name, items[k + 1].name, t);
        assert false;
      }
    }
    RowsFrame(fs, unfolded, unfolded + {t}, path, items[1..], depth);
  }

  lemma {:induction false} OpeningBelow(fs: FileSystem, unfolded: set<string>, path: string, items: seq<Item>,
                                        depth: nat, e: FileEntry)
    requires Proper(fs) && ProperItems(items) && e in Rows(fs, unfolded, path, items, depth) && e.isDirectory
    requires forall q <- unfolded :: !AtOrInside(q, e.path)
    requires items != [] && e.path == e.id && Inside(e.path, path + "/" + items[0].name)
    ensures InsertAfter(Rows(fs, unfolded, path, items, depth), e.id,
                        NewEntries(e.path, Items(fs, e.path), e.depth + 1))
         == Rows(fs, unfolded + {e.path}, path, items, depth)
    decreases Longer(unfolded, path), |items|, 0
  {
    var t, added := e.path, NewEntries(e.path, Items(fs, e.path), e.depth + 1);
    var e0, below := Entry(path, items[0], depth), Below(fs, unfolded, path, items[0], depth);
    var rest, child := Rows(fs, unfolded, path, items[1..], depth), path + "/" + items[0].name;
    NotInRest(fs, unfolded, path, items, depth, t);
    assert e in below && e in [e0] + below;
    assert HasRow(below, t) && HasRow([e0] + below, t);
    assert child in Longer(unfolded, path) && child !in Longer(unfolded, child);
    ItemsProper(fs, child);
    InsertIsOpening(fs, unfolded, child, Items(fs, child), depth + 1, e);
    InsertAfterAppend([e0] + below, rest, e.id, added);
    InsertAfterAppend([e0], below, e.id, added);
    RestFrame(fs, unfolded, path, items, depth, t);
  }

  lemma {:induction false} OpeningInRest(fs: FileSystem, unfolded: set<string>, path: string, items: seq<Item>,
                                         depth: nat, e: FileEntry)
    requires Proper(fs) && ProperItems(items) && e in Rows(fs, unfolded, path, items, depth) && e.isDirectory
    requires forall q <- unfolded :: !AtOrInside(q, e.path)
    requires items != [] && e.path == e.id && Apart(e.path, path + "/" + items[0].name)
    ensures InsertAfter(Rows(fs, unfolded, path, items, depth), e.id,
                        NewEntries(e.path, Items(fs, e.path), e.depth + 1))
         == Rows(fs, unfolded + {e.path}, path, items, depth)
    decreases Longer(unfolded, path), |items|, 0
  {
    var t, added := e.path, NewEntries(e.path, Items(fs, e.path), e.depth + 1);
    var e0, below := Entry(path, items[0], depth), Below(fs, unfolded, path, items[0], depth);
    var rest, child := Rows(fs, unfolded, path, items[1..], depth), path + "/" + items[0].name;
    assert AtOrInside(t, t) && AtOrInside(child, child);
    NotInBelow(fs, unfolded, path, items[0], depth, t);
    assert forall r :: r in [e0] + below <==> r == e0 || r in below;
    assert !HasRow([e0] + below, t);
    assert e in rest;
    InsertIsOpening(fs, unfolded, path, items[1..], depth, e);
    InsertAfterAppend([e0] + below, rest, e.id, added);
    BelowFrame(fs, unfolded, unfolded + {t}, path, items[0], depth);
  }

  // ---------------------------------------------------------------------------------------------------
  // Distinct rows
  // ---------------------------------------------------------------------------------------------------

  ghost predicate DistinctRows(rows: seq<FileEntry>) {
    forall i, j :: 0 <= i < j < |rows| ==> rows[i].id != rows[j].id
  }

  lemma {:induction false} RowsDistinct(fs: FileSystem, unfolded: set<string>, path: string, items: seq<Item>,
                                        depth: nat)
    requires Proper(fs) && ProperItems(items)
    ensures DistinctRows(Rows(fs, unfolded, path, items, depth))
    decreases Longer(unfolded, path), |items|
  {
    if items != [] {
      var e0, below := Entry(path, items[0], depth), Below(fs, unfolded, path, items[0], depth);
      var rest := Rows(fs, unfolded, path, items[1..], depth);
      RowsDistinct(fs, unfolded, path, items[1..], depth);
      BelowDistinct(fs, unfolded, path, items[0], depth);
      BelowInside(fs, unfolded, path, items[0], depth);
      NotInBelow(fs, unfolded, path, items[0], depth, e0.id);
      forall r | r in [e0] + below ensures !HasRow(rest, r.id)
      {
        assert AtOrInside(r.path, path + "/" + items[0].name);
        NotInRest(fs, unfolded, path, items, depth, r.id);
      }
    }
  }

  lemma {:induction false} BelowDistinct(fs: FileSystem, unfolded: set<string>, path: string, item: Item, depth: nat)
    requires Proper(fs)
    ensures DistinctRows(Below(fs, unfolded, path, item, depth))
    decreases Longer(unfolded, path), 0
  {
    var child := path + "/" + item.name;
    if item.isDirectory && child in unfolded {
      assert child in Longer(unfolded, path) && child !in Longer(unfolded, child);
      ItemsProper(fs, child);
      RowsDistinct(fs, unfolded, child, Items(fs, child), depth + 1);
    }
  }

  // ---------------------------------------------------------------------------------------------------
  // The sidebar
  // ---------------------------------------------------------------------------------------------------

  /** The two pieces of view state. */
  datatype Sidebar = Sidebar(expandedDirs: set<string>, entries: seq<FileEntry>)

  /** What `loadDirectory` leaves in the list. */
  ghost function Loaded(fs: FileSystem, entries: seq<FileEntry>, path: string, depth: nat,
                        insertAfter: Option<string>): seq<FileEntry>
  {
    var added := NewEntries(path, Items(fs, path), depth);
    if path !in fs then entries
    else if insertAfter.Some? && HasRow(entries, insertAfter.value) then InsertAfter(entries, insertAfter.value, added)
    else added
  }

  ghost function Toggled(fs: FileSystem, v: Sidebar, e: FileEntry): Sidebar {
    if e.path in v.expandedDirs then Sidebar(v.expandedDirs - {e.path}, Without(v.entries, e.path))
    else Sidebar(v.expandedDirs + {e.path}, Loaded(fs, v.entries, e.path, e.depth + 1, Some(e.id)))
  }

  ghost function Appeared(fs: FileSystem, root: string, v: Sidebar): Sidebar {
    v.(entries := Loaded(fs, v.entries, root, 0, None))
  }

  class FileTreeView {
    const fs: FileSystem
    const rootPath: string
    var expandedDirs: set<string>
    var entries: seq<FileEntry>

    constructor (fs: FileSystem, rootPath: string)
      ensures this.fs == fs && this.rootPath == rootPath && View() == Sidebar({}, [])
    {
      this.fs, this.rootPath, expandedDirs, entries := fs, rootPath, {}, [];
    }

    function View(): Sidebar
      reads this
    {
      Sidebar(expandedDirs, entries)
    }

    method OnAppear()
      modifies this
      ensures View() == Appeared(fs, rootPath, old(View()))
    {
      LoadDirectory(rootPath, 0, None);
    }

    method ToggleDirectory(entry: FileEntry)
      modifies this
      ensures View() == Toggled(fs, old(View()), entry)
    {
      if entry.path in expandedDirs {
        expandedDirs := expandedDirs - {entry.path};
        RemoveInside(entry.path);
      } else {
        expandedDirs := expandedDirs + {entry.path};
        LoadDirectory(entry.path, entry.depth + 1, Some(entry.id));
      }
    }

    method RemoveInside(path: string)
      modifies this`entries
      ensures entries == Without(old(entries), path)
    {
      var kept: seq<FileEntry> := [];
      assert entries[0..] == entries;
      for i := 0 to |entries|
        invariant entries == old(entries)
        invariant kept + Without(entries[i..], path) == Without(entries, path)
      {
        assert entries[i..][1..] == entries[i + 1..];
        if !Inside(entries[i].id, path) {
          assert kept + ([entries[i]] + Without(entries[i + 1..], path))
            == (kept + [entries[i]]) + Without(entries[i + 1..], path);
          kept := kept + [entries[i]];
        }
      }
      assert kept + [] == kept;
      entries := kept;
    }

    method LoadDirectory(path: string, depth: nat, insertAfter: Option<string>)
      modifies this`entries
      ensures entries == Loaded(fs, old(entries), path, depth, insertAfter)
    {
      if path !in fs {
        return;
      }
      var newEntries := NewEntries(path, Items(fs, path), depth);
      if insertAfter.Some? {
        var idx := 0;
        while idx < |entries| && entries[idx].id != insertAfter.value
          invariant 0 <= idx <= |entries| && entries == old(entries)
          invariant forall j :: 0 <= j < idx ==> entries[j].id != insertAfter.value
        {
          idx := idx + 1;
        }
        if idx < |entries| {
          InsertAfterAt(entries, insertAfter.value, newEntries, idx);
          entries := entries[..idx + 1] + newEntries + entries[idx + 1..];
          return;
        }
      }
      entries := newEntries;
    }
  }

  lemma {:induction false} InsertAfterAt(rows: seq<FileEntry>, id: string, added: seq<FileEntry>, idx: nat)
    requires idx < |rows| && rows[idx].id == id && forall j :: 0 <= j < idx ==> rows[j].id != id
    ensures InsertAfter(rows, id, added) == rows[..idx + 1] + added + rows[idx + 1..] && HasRow(rows, id)
    decreases idx
  {
    assert rows[idx] in rows;
    if idx > 0 {
      var rest := rows[1..];
      InsertAfterAt(rest, id, added, idx - 1);
      assert [rows[0]] + (rest[..idx] + added + rest[idx..]) == rows[..idx + 1] + added + rows[idx + 1..];
    }
  }

  // ---------------------------------------------------------------------------------------------------
  // The list stays a tree
  // ---------------------------------------------------------------------------------------------------

  ghost predicate ShowsTree(fs: FileSystem, root: string, v: Sidebar, unfolded: set<string>) {
    unfolded <= v.expandedDirs && v.entries == Preorder(fs, unfolded, root)
  }

  /** The list is the preorder of the tree for some set of open directories, all of them marked expanded. */
  ghost predicate IsTree(fs: FileSystem, root: string, v: Sidebar) {
    exists unfolded :: ShowsTree(fs, root, v, unfolded)
  }

  /** Nothing shows inside a directory that is not open. */
  lemma {:induction false} NoRowsInside(fs: FileSystem, unfolded: set<string>, path: string, items: seq<Item>,
                                        depth: nat, t: string)
    requires Proper(fs) && ProperItems(items) && Inside(t, path) && t !in unfolded
    ensures forall r <- Rows(fs, unfolded, path, items, depth) :: !Inside(r.id, t)
    decreases Longer(unfolded, path), |items|
  {
    if items != [] {
      NotInsideDeeper(path, items[0].name, t);
      BelowNoRowsInside(fs, unfolded, path, items[0], depth, t);
      NoRowsInside(fs, unfolded, path, items[1..], depth, t);
    }
  }

  lemma {:induction false} BelowNoRowsInside(fs: FileSystem, unfolded: set<string>, path: string, item: Item,
                                             depth: nat, t: string)
    requires Proper(fs) && '/' !in item.name && Inside(t, path) && t !in unfolded
    ensures forall r <- Below(fs, unfolded, path, item, depth) :: !Inside(r.id, t)
    decreases Longer(unfolded, path), 0
  {
    var child := path + "/" + item.name;
    Trichotomy(path, item.name, t);
    if Inside(t, child) {
      if item.isDirectory && child in unfolded {
        assert child in Longer(unfolded, path) && child !in Longer(unfolded, child);
        ItemsProper(fs, child);
        NoRowsInside(fs, unfolded, child, Items(fs, child), depth + 1, t);
      }
    } else if t != child {
      BelowInside(fs, unfolded, path, item, depth);
      forall r | r in Below(fs, unfolded, path, item, depth) ensures !Inside(r.id, t)
      {
        assert AtOrInside(r.path, child);
      }
    }
  }

  /** What is open inside a closed directory does not show. */
  lemma {:induction false} ClosedSame(fs: FileSystem, unfolded: set<string>, root: string, t: string)
    requires Proper(fs) && Inside(t, root) && t !in unfolded
    ensures Without(Preorder(fs, unfolded, root), t) == Preorder(fs, unfolded, root)
    ensures Preorder(fs, ClosedAt(unfolded, t), root) == Preorder(fs, unfolded, root)
  {
    ItemsProper(fs, root);
    NoRowsInside(fs, unfolded, root, Items(fs, root), 0, t);
    WithoutNone(Preorder(fs, unfolded, root), t);
    WithoutIsClosing(fs, unfolded, root, Items(fs, root), 0, t);
  }

  lemma {:induction false} TreeRow(fs: FileSystem, unfolded: set<string>, root: string, e: FileEntry)
    requires e in Preorder(fs, unfolded, root)
    ensures e.id == e.path && Inside(e.path, root)
  {
    RowsInside(fs, unfolded, root, Items(fs, root), 0);
  }

  /** `e` open, and nothing open inside it. */
  function JustOpened(unfolded: set<string>, path: string): set<string> {
    ClosedAt(unfolded, path) + {path}
  }

  lemma {:induction false} CollapseShows(fs: FileSystem, root: string, v: Sidebar, e: FileEntry, unfolded: set<string>)
    requires Proper(fs) && ShowsTree(fs, root, v, unfolded) && Inside(e.path, root) && e.path in v.expandedDirs
    ensures ShowsTree(fs, root, Toggled(fs, v, e), ClosedAt(unfolded, e.path))
  {
    ItemsProper(fs, root);
    WithoutIsClosing(fs, unfolded, root, Items(fs, root), 0, e.path);
  }

  lemma {:induction false} OpeningShows(fs: FileSystem, root: string, unfolded: set<string>, e: FileEntry)
    requires Proper(fs) && e in Preorder(fs, unfolded, root) && e.isDirectory && e.path !in unfolded
    ensures InsertAfter(Preorder(fs, unfolded, root), e.id, NewEntries(e.path, Items(fs, e.path), e.depth + 1))
         == Preorder(fs, JustOpened(unfolded, e.path), root)
  {
    ItemsProper(fs, root);
    TreeRow(fs, unfolded, root, e);
    ClosedSame(fs, unfolded, root, e.path);
    InsertIsOpening(fs, ClosedAt(unfolded, e.path), root, Items(fs, root), 0, e);
  }

  /** The open set after expanding `path`: unchanged if the directory cannot be read. */
  function OpenAfter(fs: FileSystem, unfolded: set<string>, path: string): set<string> {
    if path in fs then JustOpened(unfolded, path) else unfolded
  }

  lemma {:induction false} ExpandShows(fs: FileSystem, root: string, v: Sidebar, e: FileEntry, unfolded: set<string>)
    requires Proper(fs) && ShowsTree(fs, root, v, unfolded) && e in v.entries && e.isDirectory
      && e.path !in v.expandedDirs
    ensures ShowsTree(fs, root, Toggled(fs, v, e), OpenAfter(fs, unfolded, e.path))
  {
    OpeningShows(fs, root, unfolded, e);
    assert HasRow(v.entries, e.id);
  }

  datatype Action = Tap(index: nat) | Reappear

  /** Only rows of directories toggle; tapping a file changes neither piece of state. */
  ghost function Act(fs: FileSystem, root: string, v: Sidebar, a: Action): Sidebar {
    match a
    case Tap(i) => if i < |v.entries| && v.entries[i].isDirectory then Toggled(fs, v, v.entries[i]) else v
    case Reappear => Appeared(fs, root, v)
  }

  ghost function ActAll(fs: FileSystem, root: string, v: Sidebar, actions: seq<Action>): Sidebar
    decreases |actions|
  {
    if actions == [] then v else ActAll(fs, root, Act(fs, root, v, actions[0]), actions[1..])
  }

  /**
   From the first appearance on, through any sequence of taps and re-appearances, the flat list is the preorder
   of the directory tree for some set of open directories, all of them marked expanded, with no identifier twice.
   */
  lemma {:induction false} AlwaysATree(fs: FileSystem, root: string, actions: seq<Action>)
    requires Proper(fs)
    ensures var t := ActAll(fs, root, Appeared(fs, root, Sidebar({}, [])), actions);
      IsTree(fs, root, t) && DistinctRows(t.entries) && forall e <- t.entries :: Inside(e.path, root)
  {
    var first := Appeared(fs, root, Sidebar({}, []));
    OneLevel(fs, {}, root, Items(fs, root), 0);
    assert ShowsTree(fs, root, first, {});
    StaysATree(fs, root, first, actions);
  }

  lemma {:induction false} StaysATree(fs: FileSystem, root: string, v: Sidebar, actions: seq<Action>)
    requires Proper(fs) && IsTree(fs, root, v)
    ensures var t := ActAll(fs, root, v, actions);
      IsTree(fs, root, t) && DistinctRows(t.entries) && forall e <- t.entries :: Inside(e.path, root)
    decreases |actions|
  {
    var unfolded :| ShowsTree(fs, root, v, unfolded);
    if actions == [] {
      ItemsProper(fs, root);
      RowsDistinct(fs, unfolded, root, Items(fs, root), 0);
      RowsInside(fs, unfolded, root, Items(fs, root), 0);
    } else {
      ActKeepsTree(fs, root, v, actions[0], unfolded);
      StaysATree(fs, root, Act(fs, root, v, actions[0]), actions[1..]);
    }
  }

  lemma {:induction false} ActKeepsTree(fs: FileSystem, root: string, v: Sidebar, a: Action, unfolded: set<string>)
    requires Proper(fs) && ShowsTree(fs, root, v, unfolded)
    ensures IsTree(fs, root, Act(fs, root, v, a))
  {
    match a
    case Tap(i) =>
      if i < |v.entries| && v.entries[i].isDirectory {
        var e := v.entries[i];
        TreeRow(fs, unfolded, root, e);
        if e.path in v.expandedDirs {
          CollapseShows(fs, root, v, e, unfolded);
        } else {
          ExpandShows(fs, root, v, e, unfolded);
        }
      }
    case Reappear =>
      if root in fs {
        OneLevel(fs, {}, root, Items(fs, root), 0);
        assert ShowsTree(fs, root, Appeared(fs, root, v), {});
      } else {
        assert ShowsTree(fs, root, Appeared(fs, root, v), unfolded);
      }
  }

  /** Expanding a directory and collapsing it again restores list and marks exactly. */
  lemma {:induction false} ExpandThenCollapse(fs: FileSystem, root: string, v: Sidebar, e: FileEntry)
    requires Proper(fs) && IsTree(fs, root, v) && e in v.entries && e.isDirectory && e.path !in v.expandedDirs
    ensures Toggled(fs, Toggled(fs, v, e), e) == v
  {
    var unfolded :| ShowsTree(fs, root, v, unfolded);
    ExpandShows(fs, root, v, e, unfolded);
    TreeRow(fs, unfolded, root, e);
    ReopenedClosed(fs, root, unfolded, OpenAfter(fs, unfolded, e.path), e.path);
  }

  /** Deleting the rows inside `path` from any list that shows the same tree outside gives the list with it closed. */
  lemma {:induction false} ReopenedClosed(fs: FileSystem, root: string, before: set<string>, after: set<string>,
                                          path: string)
    requires Proper(fs) && Inside(path, root) && path !in before
    requires ClosedAt(after, path) == ClosedAt(before, path)
    ensures Without(Preorder(fs, after, root), path) == Preorder(fs, before, root)
  {
    ItemsProper(fs, root);
    ClosedSame(fs, before, root, path);
    WithoutIsClosing(fs, after, root, Items(fs, root), 0, path);
  }

  /**
   Collapsing leaves the marks of directories inside. Expand a directory and one inside it, collapse and expand
   the outer one again: the inner row is back, still marked expanded, without its contents; and tapping it then
   changes nothing in the list.
   */
  lemma {:induction false} StaleMarkAfterReopening(fs: FileSystem, root: string, v: Sidebar, outer: FileEntry,
                                                   inner: FileEntry)
    requires Proper(fs) && IsTree(fs, root, v)
    requires outer in v.entries && outer.isDirectory && outer.path !in v.expandedDirs
    requires var once0 := Toggled(fs, v, outer); inner in once0.entries && inner.isDirectory
    requires inner.path !in v.expandedDirs && Inside(inner.path, outer.path)
    ensures
      var once := Toggled(fs, v, outer);
      var again := Toggled(fs, Toggled(fs, Toggled(fs, once, inner), outer), outer);
      && again.entries == once.entries && inner in again.entries && inner.path in again.expandedDirs
      && Toggled(fs, again, inner).entries == again.entries
  {
    var unfolded :| ShowsTree(fs, root, v, unfolded);
    InnerThenCollapse(fs, root, v, outer, inner, unfolded);
  }

  /** After the collapse the list is as before the two taps; and nothing but the inner row was inside it at first. */
  lemma {:induction false} InnerThenCollapse(fs: FileSystem, root: string, v: Sidebar, outer: FileEntry,
                                             inner: FileEntry, unfolded: set<string>)
    requires Proper(fs) && ShowsTree(fs, root, v, unfolded)
    requires outer in v.entries && outer.isDirectory && outer.path !in v.expandedDirs
    requires inner in Toggled(fs, v, outer).entries && inner.isDirectory && inner.path !in v.expandedDirs
    requires Inside(inner.path, outer.path)
    ensures
      var once := Toggled(fs, v, outer);
      && Toggled(fs, Toggled(fs, once, inner), outer).entries == v.entries
      && Without(once.entries, inner.path) == once.entries && inner.path != outer.path
  {
    var once, one := Toggled(fs, v, outer), OpenAfter(fs, unfolded, outer.path);
    ExpandShows(fs, root, v, outer, unfolded);
    TreeRow(fs, unfolded, root, outer);
    TreeRow(fs, one, root, inner);
    ExpandShows(fs, root, once, inner, one);
    ReopenedClosed(fs, root, unfolded, OpenAfter(fs, one, inner.path), outer.path);
    ClosedSame(fs, one, root, inner.path);
  }
}
