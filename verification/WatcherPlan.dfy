/** The pure planner of a directory scan. */
module WatcherPlan {
  // It decides which session files to drain and which one to watch next.

  import opened Options

  datatype DrainPlan = DrainPlan(toDrain: seq<string>, newWatched: Option<string>)

  // ---------------------------------------------------------------------------------------------------
  // Names
  // ---------------------------------------------------------------------------------------------------

  predicate HasSuffix(s: string, suffix: string) {
    |suffix| <= |s| && s[|s| - |suffix|..] == suffix
  }

  predicate Contains(s: string, part: string) {
    exists i :: 0 <= i <= |s| - |part| && s[i..][..|part|] == part
  }

  /** A directory entry that holds a session: a `.jsonl` file that is not an index. */
  predicate IsSession(name: string) {
    HasSuffix(name, ".jsonl") && !Contains(name, "index")
  }

  /** The absolute paths of the session entries, in listing order. */
  function SessionPaths(names: seq<string>, dir: string): (paths: seq<string>) {
    if names == [] then []
    else (if IsSession(names[0]) then [dir + "/" + names[0]] else []) + SessionPaths(names[1..], dir)
  }

  predicate EndsInJsonl(name: string) {
    var n := |name|;
    && n >= 6 && name[n - 6] == '.' && name[n - 5] == 'j' && name[n - 4] == 's' && name[n - 3] == 'o'
    && name[n - 2] == 'n' && name[n - 1] == 'l'
  }

  predicate IndexAt(name: string, i: nat) {
    && i + 5 <= |name| && name[i] == 'i' && name[i + 1] == 'n' && name[i + 2] == 'd' && name[i + 3] == 'e'
    && name[i + 4] == 'x'
  }

  lemma {:induction false} JsonlExactly(name: string)
    ensures HasSuffix(name, ".jsonl") <==> EndsInJsonl(name)
  {
    var n := |name|;
    if n >= 6 {
      assert name[n - 6..] == [name[n - 6], name[n - 5], name[n - 4], name[n - 3], name[n - 2], name[n - 1]];
    }
  }

  lemma {:induction false} IndexHere(name: string, i: nat)
    requires i + 5 <= |name|
    ensures name[i..][..5] == "index" <==> IndexAt(name, i)
  {
    assert name[i..][..5] == [name[i], name[i + 1], name[i + 2], name[i + 3], name[i + 4]];
  }

  /** A session is named by `.jsonl` at the end and the letters `index` nowhere. */
  lemma {:induction false} SessionNamesExactly(name: string)
    ensures IsSession(name) <==> EndsInJsonl(name) && forall i: nat :: !IndexAt(name, i)
  {
    JsonlExactly(name);
    forall i: nat | i + 5 <= |name| ensures name[i..][..5] == "index" <==> IndexAt(name, i)
    {
      IndexHere(name, i);
    }
  }

  lemma {:induction false} SessionPathsExactly(names: seq<string>, dir: string, path: string)
    ensures path in SessionPaths(names, dir) <==>
      exists name :: name in names && IsSession(name) && path == dir + "/" + name
  {
    if names != [] {
      SessionPathsExactly(names[1..], dir, path);
      assert names == [names[0]] + names[1..];
    }
  }

  /** The paths come in the order of the listing: one for each offset of a session name, ascending. */
  lemma {:induction false} SessionPathsInOrder(names: seq<string>, dir: string) returns (at: seq<nat>)
    ensures |SessionPaths(names, dir)| == |at| && forall k, l :: 0 <= k < l < |at| ==> at[k] < at[l]
    ensures forall k :: 0 <= k < |at| ==> at[k] < |names| && SessionPaths(names, dir)[k] == dir + "/" + names[at[k]]
    ensures forall i: nat :: i < |names| ==> (i in at <==> IsSession(names[i]))
    decreases |names|
  {
    if names == [] {
      at := [];
    } else {
      var n := |names| - 1;
      at := SessionPathsInOrder(names[..n], dir);
      assert n !in at;
      assert forall i: nat :: i < n ==> names[..n][i] == names[i];
      assert names[..n] + [names[n]] == names;
      SessionPathsSnoc(names[..n], names[n], dir);
      if IsSession(names[n]) {
        at := at + [n];
      }
    }
  }

  lemma {:induction false} SessionPathsSnoc(names: seq<string>, last: string, dir: string)
    ensures SessionPaths(names + [last], dir)
         == SessionPaths(names, dir) + if IsSession(last) then [dir + "/" + last] else []
  {
    if names == [] {
      assert [last][1..] == [];
    } else {
      assert (names + [last])[1..] == names[1..] + [last];
      SessionPathsSnoc(names[1..], last, dir);
    }
  }

  // ---------------------------------------------------------------------------------------------------
  // Order of paths
  // ---------------------------------------------------------------------------------------------------

  /** Lexicographic order, the order the drain list is sorted by. */
  predicate Before(a: string, b: string) {
    if b == [] then false
    else if a == [] then true
    else if a[0] != b[0] then a[0] < b[0]
    else Before(a[1..], b[1..])
  }

  lemma {:induction false} BeforeIsTotal(a: string, b: string)
    ensures Before(a, b) || Before(b, a) || a == b
    ensures !(Before(a, b) && Before(b, a)) && !Before(a, a)
  {
    if a != [] && b != [] && a[0] == b[0] {
      BeforeIsTotal(a[1..], b[1..]);
      assert a == [a[0]] + a[1..] && b == [b[0]] + b[1..];
    }
    BeforeIrreflexive(a);
  }

  lemma {:induction false} BeforeIrreflexive(a: string)
    ensures !Before(a, a)
  {
    if a != [] {
      BeforeIrreflexive(a[1..]);
    }
  }

  lemma {:induction false} BeforeTransitive(a: string, b: string, d: string)
    requires Before(a, b) && Before(b, d)
    ensures Before(a, d)
  {
    if a != [] && a[0] == b[0] && b[0] == d[0] {
      BeforeTransitive(a[1..], b[1..], d[1..]);
    }
  }

  predicate FirstDifference(a: string, b: string, k: nat) {
    k < |a| && k < |b| && a[..k] == b[..k] && a[k] < b[k]
  }

  /** A path comes before another that continues it, or that has the greater character where they first differ. */
  lemma {:induction false} BeforeExactly(a: string, b: string)
    ensures Before(a, b) <==> a < b || exists k: nat :: FirstDifference(a, b, k)
  {
    if a != [] && b != [] {
      if a[0] == b[0] {
        BeforeExactly(a[1..], b[1..]);
        assert a == [a[0]] + a[1..] && b == [b[0]] + b[1..];
        forall k: nat ensures FirstDifference(a, b, k) <==> 0 < k && FirstDifference(a[1..], b[1..], k - 1)
        {
          DifferenceInRest(a, b, k);
        }
        if k: nat :| FirstDifference(a[1..], b[1..], k) {
          assert FirstDifference(a, b, k + 1);
        }
      } else {
        assert a[0] < b[0] ==> FirstDifference(a, b, 0);
        assert forall k: nat :: 0 < k < |a| && k < |b| ==> a[..k][0] != b[..k][0];
      }
    }
  }

  lemma {:induction false} DifferenceInRest(a: string, b: string, k: nat)
    requires a != [] && b != [] && a[0] == b[0]
    ensures FirstDifference(a, b, k) <==> 0 < k && FirstDifference(a[1..], b[1..], k - 1)
  {
    if 0 < k < |a| && k < |b| {
      assert a[..k] == [a[0]] + a[1..][..k - 1] && b[..k] == [b[0]] + b[1..][..k - 1];
      assert a[..k][1..] == a[1..][..k - 1] && b[..k][1..] == b[1..][..k - 1];
    }
  }

  /** Strictly increasing, so without repetition. */
  predicate Sorted(paths: seq<string>) {
    forall i, j :: 0 <= i < j < |paths| ==> Before(paths[i], paths[j])
  }

  /** Insertion into a sorted list; a path already there is not repeated. */
  function Insert(path: string, paths: seq<string>): (r: seq<string>) {
    if paths == [] || Before(path, paths[0]) then [path] + paths
    else if path == paths[0] then paths
    else [paths[0]] + Insert(path, paths[1..])
  }

  lemma {:induction false} InsertSorted(path: string, paths: seq<string>)
    requires Sorted(paths)
    ensures Sorted(Insert(path, paths))
    ensures forall p :: p in Insert(path, paths) <==> p == path || p in paths
  {
    if paths == [] {
    } else if Before(path, paths[0]) {
      forall j | 0 <= j < |paths| ensures Before(path, paths[j])
      {
        if j > 0 { BeforeTransitive(path, paths[0], paths[j]); }
      }
    } else if path != paths[0] {
      var rest := Insert(path, paths[1..]);
      InsertSorted(path, paths[1..]);
      assert paths == [paths[0]] + paths[1..];
      BeforeIsTotal(path, paths[0]);
      forall j | 0 <= j < |rest| ensures Before(paths[0], rest[j])
      {
        assert rest[j] in rest;
        if rest[j] != path {
          var i :| 0 <= i < |paths[1..]| && paths[1..][i] == rest[j];
          assert Before(paths[0], paths[i + 1]);
        }
      }
    }
  }

  // ---------------------------------------------------------------------------------------------------
  // The plan
  // ---------------------------------------------------------------------------------------------------

  /** The first path in listing order with the greatest modification time. */
  function Latest(paths: seq<string>, mtime: string -> int): (latest: string)
    requires paths != []
  {
    var n := |paths| - 1;
    if n == 0 then paths[0]
    else
      var best := Latest(paths[..n], mtime);
      if mtime(best) < mtime(paths[n]) then paths[n] else best
  }

  lemma {:induction false} LatestIsNewest(paths: seq<string>, mtime: string -> int)
    requires paths != []
    ensures Latest(paths, mtime) in paths
    ensures forall p <- paths :: mtime(p) <= mtime(Latest(paths, mtime))
  {
    var n := |paths| - 1;
    if n > 0 {
      LatestIsNewest(paths[..n], mtime);
      assert paths == paths[..n] + [paths[n]];
    }
  }

  /** Of several files equally new, the first in the listing is chosen. */
  lemma {:induction false} FirstOfTheNewest(paths: seq<string>, mtime: string -> int) returns (k: nat)
    requires paths != []
    ensures k < |paths| && Latest(paths, mtime) == paths[k]
    ensures forall j :: 0 <= j < |paths| ==> mtime(paths[j]) <= mtime(paths[k])
    ensures forall j :: 0 <= j < k ==> mtime(paths[j]) < mtime(paths[k])
  {
    var n := |paths| - 1;
    if n == 0 {
      k := 0;
    } else {
      var l := FirstOfTheNewest(paths[..n], mtime);
      assert forall j :: 0 <= j < n ==> paths[..n][j] == paths[j];
      k := if mtime(paths[l]) < mtime(paths[n]) then n else l;
    }
  }

  /** What a plan must be: the meaning the loops below are checked against. */
  ghost predicate IsPlan(plan: DrainPlan, paths: seq<string>, watched: Option<string>, drained: set<string>,
                         mtime: string -> int)
  {
    if paths == [] then plan == DrainPlan([], None)
    else
      var latest := Latest(paths, mtime);
      && plan.newWatched == (if watched == Some(latest) then None else Some(latest))
      && Sorted(plan.toDrain)
      && forall p :: p in plan.toDrain <==>
           p != latest && p !in drained && (p in paths || watched == Some(p))
  }

  /** The planner as the program runs it: collect, then sort. */
  method Plan(names: seq<string>, dir: string, watched: Option<string>, drained: set<string>, mtime: string -> int)
    returns (plan: DrainPlan)
    ensures IsPlan(plan, SessionPaths(names, dir), watched, drained, mtime)
  {
    var paths := SessionPaths(names, dir);
    if paths == [] {
      return DrainPlan([], None);
    }
    var latest := Latest(paths, mtime);
    var toDrain: seq<string> := [];
    for i := 0 to |paths|
      invariant Sorted(toDrain)
      invariant forall p :: p in toDrain <==> p != latest && p !in drained && p in paths[..i]
    {
      assert paths[..i + 1] == paths[..i] + [paths[i]];
      if paths[i] != latest && paths[i] !in drained {
        InsertSorted(paths[i], toDrain);
        toDrain := Insert(paths[i], toDrain);
      }
    }
    assert paths[..|paths|] == paths;
    if watched.Some? && watched.value != latest && watched.value !in drained {
      InsertSorted(watched.value, toDrain);
      toDrain := Insert(watched.value, toDrain);
    }
    plan := DrainPlan(toDrain, if watched == Some(latest) then None else Some(latest));
  }

  // ---------------------------------------------------------------------------------------------------
  // What the plan guarantees
  // ---------------------------------------------------------------------------------------------------

  lemma {:induction false} FirstIsNotInRest(a: seq<string>)
    requires Sorted(a) && a != []
    ensures a[0] !in a[1..]
  {
    if a[0] in a[1..] {
      var i :| 0 <= i < |a| - 1 && a[1..][i] == a[0];
      assert Before(a[0], a[i + 1]);
      BeforeIrreflexive(a[0]);
    }
  }

  lemma {:induction false} SortedUnique(a: seq<string>, b: seq<string>)
    requires Sorted(a) && Sorted(b) && forall p :: p in a <==> p in b
    ensures a == b
    decreases |a|
  {
    assert a != [] ==> a[0] in a;
    assert b != [] ==> b[0] in b;
    if a != [] {
      assert b != [];
      if a[0] != b[0] {
        var i :| 0 <= i < |b| && b[i] == a[0];
        var j :| 0 <= j < |a| && a[j] == b[0];
        assert Before(b[0], b[i]) && Before(a[0], a[j]);
        BeforeIsTotal(a[0], b[0]);
      }
      var x, y := a[1..], b[1..];
      FirstIsNotInRest(a);
      FirstIsNotInRest(b);
      assert a[0] == b[0];
      assert a == [a[0]] + x && b == [b[0]] + y;
      assert forall p :: p in x <==> p in a && p != a[0];
      assert forall p :: p in y <==> p in b && p != b[0];
      SortedUnique(x, y);
    }
  }

  /** The plan depends on nothing but its arguments: two runs on the same scan agree. */
  lemma {:induction false} PlanIsDetermined(p: DrainPlan, q: DrainPlan, paths: seq<string>, watched: Option<string>,
                                            drained: set<string>, mtime: string -> int)
    requires IsPlan(p, paths, watched, drained, mtime) && IsPlan(q, paths, watched, drained, mtime)
    ensures p == q
  {
    if paths != [] {
      SortedUnique(p.toDrain, q.toDrain);
    }
  }

  /**
   No file is forgotten by a scan: each session file is about to be watched, already watched, drained by this
   plan or was drained before.
   */
  lemma {:induction false} EveryFileIsAccountedFor(plan: DrainPlan, paths: seq<string>, watched: Option<string>,
                                                   drained: set<string>, mtime: string -> int, p: string)
    requires IsPlan(plan, paths, watched, drained, mtime) && p in paths
    ensures plan.newWatched == Some(p) || (plan.newWatched == None && watched == Some(p))
         || p in plan.toDrain || p in drained
    ensures plan.newWatched == Some(p) ==> p !in plan.toDrain
  {
  }

  /**
   The file being rotated away from is drained if and only if it was not drained before. The comment on the
   planner promises the drain always.
   */
  lemma {:induction false} PriorIsDrainedExactly(plan: DrainPlan, paths: seq<string>, prior: string,
                                                 drained: set<string>, mtime: string -> int)
    requires IsPlan(plan, paths, Some(prior), drained, mtime) && plan.newWatched.Some?
    ensures prior in plan.toDrain <==> prior !in drained
  {
  }
}
