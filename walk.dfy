/**
 * `find_gamelist_files`: a top-down `os.walk` over a directory tree that prunes hidden subdirectories
 * before descending and collects the path of every file named exactly `gamelist.xml`. The file
 * system is an in-memory tree; the order of `files` and `subdirs` is the order the walk lists them in.
 */
module Walk {

  /**
   * A directory: its own name, whether it can be listed, the names of the files in it, and its subdirectories.
   * A directory that cannot be listed (or does not exist) is skipped by `os.walk` without an error.
   */
  datatype Dir = Dir(name: string, readable: bool, files: seq<string>, subdirs: seq<Dir>)

  /** A directory the walk yields: the path it was reached by, and the directory itself. */
  type Entry = (string, Dir)

  const GAMELIST: string := "gamelist.xml"

  /** `d.startswith('.')`. */
  predicate IsHidden(name: string) {
    |name| > 0 && name[0] == '.'
  }

  /** `os.path.join(a, b)` on POSIX: an absolute `b` replaces `a`; otherwise a `/` is put between them unless `a` is empty or already ends with one. */
  function Join(a: string, b: string): (r: string)
    ensures |b| > 0 && b[0] == '/' ==> r == b
    ensures !(|b| > 0 && b[0] == '/') && a != [] && a[|a| - 1] != '/' ==> r == a + "/" + b
    ensures !(|b| > 0 && b[0] == '/') && (a == [] || a[|a| - 1] == '/') ==> r == a + b
  {
    if |b| > 0 && b[0] == '/' then b
    else if a == [] || a[|a| - 1] == '/' then a + b
    else a + "/" + b
  }

  /** `[d for d in dirs if not d.startswith('.')]`: the subdirectories the walk descends into, order kept. */
  function Visible(ds: seq<Dir>): (r: seq<Dir>)
  {
    if ds == [] then []
    else (if IsHidden(ds[0].name) then [] else [ds[0]]) + Visible(ds[1..])
  }

  /** The entries the walk pushes for the (pruned) subdirectories `ds` of the directory at `path`. */
  function ChildEntries(path: string, ds: seq<Dir>): (r: seq<Entry>)
  {
    if ds == [] then [] else [(Join(path, ds[0].name), ds[0])] + ChildEntries(path, ds[1..])
  }

  function Size(d: Dir): (n: nat)
    ensures n >= 1
  {
    1 + SizeAll(d.subdirs)
  }

  function SizeAll(ds: seq<Dir>): nat {
    if ds == [] then 0 else Size(ds[0]) + SizeAll(ds[1..])
  }

  function EntriesSize(es: seq<Entry>): nat {
    if es == [] then 0 else Size(es[0].1) + EntriesSize(es[1..])
  }

  lemma {:induction false} EntriesSizeAppend(a: seq<Entry>, b: seq<Entry>)
    ensures EntriesSize(a + b) == EntriesSize(a) + EntriesSize(b)
  {
    if a == [] {
      assert a + b == b;
    } else {
      assert (a + b)[0] == a[0] && (a + b)[1..] == a[1..] + b;
      EntriesSizeAppend(a[1..], b);
    }
  }

  lemma {:induction false} ChildEntriesSize(path: string, ds: seq<Dir>)
    ensures EntriesSize(ChildEntries(path, ds)) == SizeAll(ds)
  {
    if ds != [] {
      ChildEntriesSize(path, ds[1..]);
    }
  }

  lemma {:induction false} VisibleSize(ds: seq<Dir>)
    ensures SizeAll(Visible(ds)) <= SizeAll(ds)
  {
    if ds != [] {
      VisibleSize(ds[1..]);
      var rest := Visible(ds[1..]);
      if IsHidden(ds[0].name) {
        assert Visible(ds) == [] + rest == rest;
      } else {
        var v := Visible(ds);
        assert v == [ds[0]] + rest;
        assert v[0] == ds[0] && v[1..] == rest;
      }
    }
  }

  /** The pending entries after visiting `d` at `path` are smaller than `d` itself. */
  lemma ChildrenSmaller(path: string, d: Dir)
    ensures EntriesSize(ChildEntries(path, Visible(d.subdirs))) < Size(d)
  {
    ChildEntriesSize(path, Visible(d.subdirs));
    VisibleSize(d.subdirs);
  }

  /**
   * The directories `os.walk(path)` yields for the tree `d`, top-down: `d` first, then each non-hidden subtree
   * in order; nothing when `d` cannot be listed.
   */
  function Visit(path: string, d: Dir): seq<Entry>
    decreases Size(d), 0
  {
    if !d.readable then []
    else
      ChildrenSmaller(path, d);
      [(path, d)] + VisitAll(ChildEntries(path, Visible(d.subdirs)))
  }

  /** The directories yielded for each of the pending entries `es`, one subtree after the other. */
  function VisitAll(es: seq<Entry>): seq<Entry>
    decreases EntriesSize(es), 1
  {
    if es == [] then []
    else
      assert EntriesSize(es) == Size(es[0].1) + EntriesSize(es[1..]);
      Visit(es[0].0, es[0].1) + VisitAll(es[1..])
  }

  lemma {:induction false} VisitAllAppend(a: seq<Entry>, b: seq<Entry>)
    ensures VisitAll(a + b) == VisitAll(a) + VisitAll(b)
    decreases |a|
  {
    if a == [] {
      assert a + b == b;
    } else {
      assert (a + b)[0] == a[0] && (a + b)[1..] == a[1..] + b;
      VisitAllAppend(a[1..], b);
    }
  }

  /** What the inner loop appends for the files of one directory: one path per file named exactly `gamelist.xml`. */
  function Matches(root: string, files: seq<string>): seq<string> {
    if files == [] then []
    else Matches(root, files[..|files| - 1]) + (if files[|files| - 1] == GAMELIST then [Join(root, GAMELIST)] else [])
  }

  /** A directory contributes only `join(root, "gamelist.xml")`, and contributes something iff it holds that file. */
  lemma {:induction false} MatchesContents(root: string, files: seq<string>)
    ensures forall p :: p in Matches(root, files) ==> p == Join(root, GAMELIST)
    ensures |Matches(root, files)| > 0 <==> GAMELIST in files
  {
    if files != [] {
      var init := files[..|files| - 1];
      MatchesContents(root, init);
      assert files == init + [files[|files| - 1]];
    }
  }

  /** The gamelist paths contributed by the visited directories `es`, in visiting order. */
  function Collect(es: seq<Entry>): seq<string> {
    if es == [] then [] else Collect(es[..|es| - 1]) + Matches(es[|es| - 1].0, es[|es| - 1].1.files)
  }

  /** `find_gamelist_files(path)` for the tree `d`. */
  function GamelistPaths(path: string, d: Dir): seq<string> {
    Collect(Visit(path, d))
  }

  /**
   * Visiting the first pending entry yields it and puts its pruned subdirectories in front of the rest
   * (or yields nothing and drops it when it cannot be listed).
   */
  lemma VisitStep(root: string, d: Dir, rest: seq<Entry>)
    ensures !d.readable ==> VisitAll([(root, d)] + rest) == VisitAll(rest)
    ensures d.readable ==> VisitAll([(root, d)] + rest) == [(root, d)] + VisitAll(ChildEntries(root, Visible(d.subdirs)) + rest)
    ensures EntriesSize(ChildEntries(root, Visible(d.subdirs)) + rest) < EntriesSize([(root, d)] + rest)
    ensures EntriesSize(rest) < EntriesSize([(root, d)] + rest)
  {
    if d.readable {
      EnterStep(root, d, rest);
    } else {
      SkipStep(root, d, rest);
    }
    StepSmaller(root, d, rest);
  }

  lemma SkipStep(root: string, d: Dir, rest: seq<Entry>)
    requires !d.readable
    ensures VisitAll([(root, d)] + rest) == VisitAll(rest)
  {
    VisitSingle(root, d);
    VisitAllAppend([(root, d)], rest);
    VisitUnfold(root, d);
    assert [] + VisitAll(rest) == VisitAll(rest);
  }

  lemma EnterStep(root: string, d: Dir, rest: seq<Entry>)
    requires d.readable
    ensures VisitAll([(root, d)] + rest) == [(root, d)] + VisitAll(ChildEntries(root, Visible(d.subdirs)) + rest)
  {
    var children := ChildEntries(root, Visible(d.subdirs));
    var top: seq<Entry> := [(root, d)];
    VisitAllAppend(top, rest);
    VisitTop(root, d);
    VisitAllAppend(children, rest);
    Reassociate(top, VisitAll(children), VisitAll(rest));
  }

  lemma VisitTop(root: string, d: Dir)
    requires d.readable
    ensures VisitAll([(root, d)]) == [(root, d)] + VisitAll(ChildEntries(root, Visible(d.subdirs)))
  {
    VisitSingle(root, d);
    VisitUnfold(root, d);
  }

  lemma Reassociate(a: seq<Entry>, b: seq<Entry>, c: seq<Entry>)
    ensures a + b + c == a + (b + c)
  {
  }

  lemma VisitUnfold(path: string, d: Dir)
    ensures !d.readable ==> Visit(path, d) == []
    ensures d.readable ==> Visit(path, d) == [(path, d)] + VisitAll(ChildEntries(path, Visible(d.subdirs)))
  {
  }

  lemma VisitSingle(root: string, d: Dir)
    ensures VisitAll([(root, d)]) == Visit(root, d)
  {
    var single: seq<Entry> := [(root, d)];
    assert single[0] == (root, d) && single[1..] == [];
  }

  lemma StepSmaller(root: string, d: Dir, rest: seq<Entry>)
    ensures EntriesSize(ChildEntries(root, Visible(d.subdirs)) + rest) < EntriesSize([(root, d)] + rest)
    ensures EntriesSize(rest) < EntriesSize([(root, d)] + rest)
  {
    var children := ChildEntries(root, Visible(d.subdirs));
    var single: seq<Entry> := [(root, d)];
    EntriesSizeAppend(children, rest);
    EntriesSizeAppend(single, rest);
    assert EntriesSize(single) == Size(d) + EntriesSize([]) by {
      assert single[0] == (root, d) && single[1..] == [];
    }
    ChildrenSmaller(root, d);
  }

  /** The inner `for file in files` loop: appends the path of every file named exactly `gamelist.xml`. */
  method AppendMatches(acc: seq<string>, root: string, files: seq<string>) returns (r: seq<string>)
    ensures r == acc + Matches(root, files)
  {
    r := acc;
    for i := 0 to |files|
      invariant r == acc + Matches(root, files[..i])
    {
      MatchesStep(root, files, i);
      if files[i] == GAMELIST {
        r := r + [Join(root, files[i])];
      }
    }
    assert files[..|files|] == files;
  }

  lemma MatchesStep(root: string, files: seq<string>, i: nat)
    requires i < |files|
    ensures Matches(root, files[..i + 1]) == Matches(root, files[..i]) + (if files[i] == GAMELIST then [Join(root, GAMELIST)] else [])
  {
    assert files[..i + 1][..i] == files[..i];
  }

  lemma CollectSnoc(es: seq<Entry>, e: Entry)
    ensures Collect(es + [e]) == Collect(es) + Matches(e.0, e.1.files)
  {
    assert (es + [e])[..|es|] == es;
  }

  /** `find_gamelist_files`: the `os.walk` loop with its pending stack and its accumulator. */
  method FindGamelistFiles(directory: string, top: Dir) returns (gamelistFiles: seq<string>)
    ensures gamelistFiles == GamelistPaths(directory, top)
  {
    gamelistFiles := [];
    var pending: seq<Entry> := [(directory, top)];
    ghost var visited: seq<Entry> := [];
    assert VisitAll(pending) == Visit(directory, top) + VisitAll([]);
    while pending != []
      invariant visited + VisitAll(pending) == Visit(directory, top)
      invariant gamelistFiles == Collect(visited)
      decreases EntriesSize(pending)
    {
      var (root, d) := pending[0];
      var rest := pending[1..];
      assert pending == [(root, d)] + rest;
      WalkAdvance(visited, root, d, rest, Visit(directory, top));
      if !d.readable {
        pending := rest;
        continue;
      }
      var dirs := Visible(d.subdirs);
      gamelistFiles := AppendMatches(gamelistFiles, root, d.files);
      CollectSnoc(visited, (root, d));
      visited := visited + [(root, d)];
      pending := ChildEntries(root, dirs) + rest;
    }
    assert visited + [] == visited;
  }

  /** One turn of the walk loop keeps "visited, then what the pending entries yield" equal to the whole walk. */
  lemma WalkAdvance(visited: seq<Entry>, root: string, d: Dir, rest: seq<Entry>, whole: seq<Entry>)
    requires visited + VisitAll([(root, d)] + rest) == whole
    ensures !d.readable ==> visited + VisitAll(rest) == whole
    ensures d.readable ==> visited + [(root, d)] + VisitAll(ChildEntries(root, Visible(d.subdirs)) + rest) == whole
    ensures EntriesSize(ChildEntries(root, Visible(d.subdirs)) + rest) < EntriesSize([(root, d)] + rest)
    ensures EntriesSize(rest) < EntriesSize([(root, d)] + rest)
  {
    VisitStep(root, d, rest);
    if d.readable {
      var later := VisitAll(ChildEntries(root, Visible(d.subdirs)) + rest);
      assert visited + ([(root, d)] + later) == visited + [(root, d)] + later;
    }
  }

  lemma {:induction false} VisibleMembers(ds: seq<Dir>)
    ensures forall c :: c in Visible(ds) <==> c in ds && !IsHidden(c.name)
  {
    if ds != [] {
      VisibleMembers(ds[1..]);
      assert ds == [ds[0]] + ds[1..];
    }
  }

  lemma {:induction false} ChildEntriesMembers(path: string, ds: seq<Dir>)
    ensures forall e :: e in ChildEntries(path, ds) <==> exists c :: c in ds && e == (Join(path, c.name), c)
  {
    if ds != [] {
      ChildEntriesMembers(path, ds[1..]);
      assert ds == [ds[0]] + ds[1..];
    }
  }

  lemma {:induction false} VisitAllMembers(es: seq<Entry>, x: Entry)
    ensures x in VisitAll(es) <==> exists i :: 0 <= i < |es| && x in Visit(es[i].0, es[i].1)
    decreases |es|
  {
    if es != [] {
      VisitAllMembers(es[1..], x);
      if x in VisitAll(es[1..]) {
        var i :| 0 <= i < |es[1..]| && x in Visit(es[1..][i].0, es[1..][i].1);
        assert es[i + 1] == es[1..][i];
      }
      if exists i :: 0 <= i < |es| && x in Visit(es[i].0, es[i].1) {
        var i :| 0 <= i < |es| && x in Visit(es[i].0, es[i].1);
        if i > 0 {
          assert es[1..][i - 1] == es[i];
        }
      }
    }
  }

  /**
   * A route from `d` by subdirectory positions through directories that can be listed, never entering a
   * subdirectory whose name starts with `.`; the name of `d` itself is not looked at.
   */
  predicate OpenRoute(d: Dir, route: seq<nat>)
    decreases |route|
  {
    && d.readable
    && (|| route == []
        || (&& route[0] < |d.subdirs|
            && !IsHidden(d.subdirs[route[0]].name)
            && OpenRoute(d.subdirs[route[0]], route[1..])))
  }

  /** The directory at the end of `route`, with the path `os.walk` gives it when started at `path`. */
  function At(path: string, d: Dir, route: seq<nat>): Entry
    requires OpenRoute(d, route)
    decreases |route|
  {
    if route == [] then (path, d)
    else
      var c := d.subdirs[route[0]];
      At(Join(path, c.name), c, route[1..])
  }

  /** Completeness: every directory reachable through non-hidden subdirectories is visited (the root always is). */
  lemma {:induction false} ReachableIsVisited(path: string, d: Dir, route: seq<nat>)
    requires OpenRoute(d, route)
    ensures At(path, d, route) in Visit(path, d)
    decreases |route|
  {
    if route != [] {
      var c := d.subdirs[route[0]];
      var ce := (Join(path, c.name), c);
      ReachableIsVisited(ce.0, c, route[1..]);
      VisibleMembers(d.subdirs);
      var children := ChildEntries(path, Visible(d.subdirs));
      ChildEntriesMembers(path, Visible(d.subdirs));
      assert ce in children;
      var i :| 0 <= i < |children| && children[i] == ce;
      VisitAllMembers(children, At(path, d, route));
    }
  }

  /** Soundness: every visited directory is reached through listable, non-hidden subdirectories only. */
  lemma {:induction false} VisitedIsReachable(path: string, d: Dir, e: Entry)
    requires e in Visit(path, d)
    ensures exists route :: OpenRoute(d, route) && At(path, d, route) == e
    decreases d
  {
    VisitUnfold(path, d);
    if e == (path, d) {
      assert OpenRoute(d, []) && At(path, d, []) == e;
    } else {
      var i := InSubtree(path, d, e);
      var c := d.subdirs[i];
      VisitedIsReachable(Join(path, c.name), c, e);
      var rest :| OpenRoute(c, rest) && At(Join(path, c.name), c, rest) == e;
      ExtendRoute(path, d, i, rest);
    }
  }

  /** A visited directory other than the top one lies in the walk of some non-hidden subdirectory. */
  lemma InSubtree(path: string, d: Dir, e: Entry) returns (i: nat)
    requires e in Visit(path, d) && e != (path, d)
    ensures d.readable && i < |d.subdirs| && !IsHidden(d.subdirs[i].name)
    ensures e in Visit(Join(path, d.subdirs[i].name), d.subdirs[i])
  {
    VisitUnfold(path, d);
    var children := ChildEntries(path, Visible(d.subdirs));
    VisitAllMembers(children, e);
    var j :| 0 <= j < |children| && e in Visit(children[j].0, children[j].1);
    ChildEntriesMembers(path, Visible(d.subdirs));
    assert children[j] in children;
    var c :| c in Visible(d.subdirs) && children[j] == (Join(path, c.name), c);
    VisibleMembers(d.subdirs);
    i :| 0 <= i < |d.subdirs| && d.subdirs[i] == c;
  }

  /** A route from a non-hidden subdirectory of a listable directory extends to a route from that directory. */
  lemma ExtendRoute(path: string, d: Dir, i: nat, rest: seq<nat>)
    requires d.readable && i < |d.subdirs| && !IsHidden(d.subdirs[i].name)
    requires OpenRoute(d.subdirs[i], rest)
    ensures OpenRoute(d, [i] + rest) && At(path, d, [i] + rest) == At(Join(path, d.subdirs[i].name), d.subdirs[i], rest)
  {
    var route := [i] + rest;
    assert route[0] == i && route[1..] == rest;
  }

  lemma {:induction false} CollectMembers(es: seq<Entry>, p: string)
    ensures p in Collect(es) <==> exists i :: 0 <= i < |es| && GAMELIST in es[i].1.files && p == Join(es[i].0, GAMELIST)
  {
    if es != [] {
      var init := es[..|es| - 1];
      CollectMembers(init, p);
      MatchesContents(es[|es| - 1].0, es[|es| - 1].1.files);
      if exists i :: 0 <= i < |es| && GAMELIST in es[i].1.files && p == Join(es[i].0, GAMELIST) {
        var i :| 0 <= i < |es| && GAMELIST in es[i].1.files && p == Join(es[i].0, GAMELIST);
        if i < |es| - 1 {
          assert init[i] == es[i];
        } else {
          var m := Matches(es[i].0, es[i].1.files);
          assert m[0] in m;
          assert Collect(es) == Collect(init) + m;
        }
      }
      if p in Collect(init) {
        var i :| 0 <= i < |init| && GAMELIST in init[i].1.files && p == Join(init[i].0, GAMELIST);
        assert es[i] == init[i];
      }
    }
  }

  /**
   * What `find_gamelist_files` returns: exactly the paths `join(root, "gamelist.xml")` of the directories
   * reachable without entering a hidden subdirectory that hold a file named exactly `gamelist.xml`.
   */
  lemma GamelistPathsExactly(path: string, d: Dir, p: string)
    ensures p in GamelistPaths(path, d) <==>
      exists route :: OpenRoute(d, route) && GAMELIST in At(path, d, route).1.files && p == Join(At(path, d, route).0, GAMELIST)
  {
    var visited := Visit(path, d);
    CollectMembers(visited, p);
    if p in GamelistPaths(path, d) {
      var i :| 0 <= i < |visited| && GAMELIST in visited[i].1.files && p == Join(visited[i].0, GAMELIST);
      VisitedIsReachable(path, d, visited[i]);
    }
    if exists route :: OpenRoute(d, route) && GAMELIST in At(path, d, route).1.files && p == Join(At(path, d, route).0, GAMELIST) {
      var route :| OpenRoute(d, route) && GAMELIST in At(path, d, route).1.files && p == Join(At(path, d, route).0, GAMELIST);
      ReachableIsVisited(path, d, route);
      var i :| 0 <= i < |visited| && visited[i] == At(path, d, route);
    }
  }

  predicate NoDuplicates(names: seq<string>) {
    forall i, j :: 0 <= i < j < |names| ==> names[i] != names[j]
  }

  /** A directory lists each file name once, so it contributes at most one gamelist path. */
  lemma {:induction false} AtMostOnePerDirectory(root: string, files: seq<string>)
    requires NoDuplicates(files)
    ensures |Matches(root, files)| <= 1
  {
    if files != [] {
      var init := files[..|files| - 1];
      AtMostOnePerDirectory(root, init);
      MatchesContents(root, init);
    }
  }
}
