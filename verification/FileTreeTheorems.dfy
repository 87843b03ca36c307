/** What the review's file tree promises about the changed files. */
module FileTreeTheorems {
  import opened Options
  import opened FileTree

  // ---------------------------------------------------------------- the files of a tree

  function Own(t: Tree): seq<File> {
    if t.file.Some? then [t.file.value] else []
  }

  /** All files of a forest, top down. */
  function Files(ts: seq<Tree>): seq<File> {
    if ts == [] then [] else Own(ts[0]) + Files(ts[0].children) + Files(ts[1..])
  }

  /** The file stands where its path leads to. */
  predicate Stands(ts: seq<Tree>, above: Parts, f: File) {
    |above| < |PartsOf(f)| && PartsOf(f)[..|above|] == above && Lookup(ts, PartsOf(f)[|above|..]) == Some(f)
  }

  lemma SnocIsInjective(a: Parts, x: string, b: Parts, y: string)
    ensures a + [x] == b + [y] <==> a == b && x == y
  {
    if a + [x] == b + [y] {
      assert a == (a + [x])[..|a|] && b == (b + [y])[..|b|];
      assert x == (a + [x])[|a|] && y == (b + [y])[|b|];
    }
  }

  lemma StandsBelow(t: Tree, above: Parts, f: File)
    ensures Stands(t.children, above + [t.name], f)
            <==> |above| + 1 < |PartsOf(f)| && PartsOf(f)[..|above|] == above && PartsOf(f)[|above|] == t.name
                 && Lookup(t.children, PartsOf(f)[|above|..][1..]) == Some(f)
  {
    var parts := PartsOf(f);
    if |above| + 1 < |parts| {
      assert parts[|above|..][1..] == parts[|above| + 1..];
      assert parts[..|above| + 1] == parts[..|above|] + [parts[|above|]];
      SnocIsInjective(parts[..|above|], parts[|above|], above, t.name);
    }
  }

  lemma {:induction false} LookupNamesAChild(ts: seq<Tree>, q: Parts)
    requires q != [] && Lookup(ts, q) != None
    ensures exists t :: t in ts && t.name == q[0]
    decreases |ts|
  {
    if ts[0].name == q[0] {
      assert ts[0] in ts;
    } else {
      LookupNamesAChild(ts[1..], q);
    }
  }

  lemma FirstOrRest(ts: seq<Tree>, above: Parts, f: File)
    requires ts != [] && Grown(ts, above)
    ensures Stands(ts, above, f)
            <==> f in Own(ts[0]) || Stands(ts[0].children, above + [ts[0].name], f) || Stands(ts[1..], above, f)
  {
    var t, parts := ts[0], PartsOf(f);
    StandsBelow(t, above, f);
    if |above| < |parts| && parts[..|above|] == above {
      var q := parts[|above|..];
      if Lookup(ts[1..], q) != None {
        LookupNamesAChild(ts[1..], q);
      }
      assert parts == above + q;
      if |q| == 1 {
        assert parts == above + [q[0]];
      }
    }
    if f in Own(t) {
      assert parts == above + [t.name];
      assert parts[|above|..] == [t.name];
    }
  }

  /** The files of a grown forest are those that stand in it. */
  lemma {:induction false} FilesStand(ts: seq<Tree>, above: Parts, f: File)
    requires Grown(ts, above)
    ensures f in Files(ts) <==> Stands(ts, above, f)
    decreases ts
  {
    if ts != [] {
      FilesStand(ts[0].children, above + [ts[0].name], f);
      FilesStand(ts[1..], above, f);
      FirstOrRest(ts, above, f);
    }
  }

  // ---------------------------------------------------------------- no file twice, none lost

  ghost predicate DistinctPaths(files: seq<File>) {
    forall i, j | 0 <= i < j < |files| :: files[i].path != files[j].path
  }

  lemma DistinctConcat(a: seq<File>, b: seq<File>)
    requires DistinctPaths(a) && DistinctPaths(b) && forall f, g | f in a && g in b :: f.path != g.path
    ensures DistinctPaths(a + b)
  {
    forall i, j | 0 <= i < j < |a + b| ensures (a + b)[i].path != (a + b)[j].path {
      if i < |a| <= j {
        assert a[i] in a && b[j - |a|] in b;
      }
    }
  }

  lemma {:induction false} FilesAreDistinct(ts: seq<Tree>, above: Parts)
    requires Grown(ts, above)
    ensures DistinctPaths(Files(ts))
    decreases ts
  {
    if ts != [] {
      var t, below, rest := ts[0], Files(ts[0].children), Files(ts[1..]);
      FilesAreDistinct(t.children, above + [t.name]);
      FilesAreDistinct(ts[1..], above);
      forall f, g | f in Own(t) && g in below ensures f.path != g.path {
        FilesStand(t.children, above + [t.name], g);
        StandsBelow(t, above, g);
      }
      DistinctConcat(Own(t), below);
      forall f, g | f in Own(t) + below && g in rest ensures f.path != g.path {
        FilesStand(t.children, above + [t.name], f);
        StandsBelow(t, above, f);
        FilesStand(ts[1..], above, g);
        LookupNamesAChild(ts[1..], PartsOf(g)[|above|..]);
      }
      DistinctConcat(Own(t) + below, rest);
    }
  }

  lemma {:induction false} CountOnce(files: seq<File>, f: File)
    requires DistinctPaths(files)
    ensures multiset(files)[f] == if f in files then 1 else 0
  {
    if files != [] {
      CountOnce(files[1..], f);
      assert files == [files[0]] + files[1..];
    }
  }

  /** The tree holds, for every path given, the last file given with it, and nothing else. */
  lemma BuildHolds(files: seq<File>, f: File)
    ensures f in Files(Build(files)) <==> Latest(files, f.path) == Some(f)
  {
    BuildGrown(files);
    FilesStand(Build(files), [], f);
    BuildFinds(files, f.path);
    assert PartsOf(f)[0..] == PartsOf(f) && PartsOf(f)[..0] == [];
  }

  lemma {:induction false} LatestOfDistinct(files: seq<File>, f: File)
    requires DistinctPaths(files)
    ensures Latest(files, f.path) == Some(f) <==> f in files
  {
    if files != [] {
      var front, last := files[..|files| - 1], files[|files| - 1];
      assert files == front + [last];
      LatestOfDistinct(front, f);
    }
  }

  /** With distinct paths the tree holds each file exactly once. */
  lemma BuildKeepsFiles(files: seq<File>)
    requires DistinctPaths(files)
    ensures multiset(Files(Build(files))) == multiset(files)
  {
    BuildGrown(files);
    FilesAreDistinct(Build(files), []);
    forall f ensures multiset(Files(Build(files)))[f] == multiset(files)[f] {
      BuildHolds(files, f);
      LatestOfDistinct(files, f);
      CountOnce(files, f);
      CountOnce(Files(Build(files)), f);
    }
  }

  // ---------------------------------------------------------------- compression keeps the files

  lemma FilesCons(t: Tree, ts: seq<Tree>)
    ensures multiset(Files([t] + ts)) == multiset(Files([t])) + multiset(Files(ts))
  {
    assert ([t] + ts)[1..] == ts;
    assert Files([t]) == Own(t) + Files(t.children) + Files([]);
    assert Files([t] + ts) == Own(t) + Files(t.children) + Files(ts);
  }

  /** The files of the two lists are the same, however they are ordered. */
  ghost predicate SameFiles(a: seq<Tree>, b: seq<Tree>) {
    multiset(Files(a)) == multiset(Files(b))
  }

  lemma SameFilesCons(t: Tree, u: Tree, a: seq<Tree>, b: seq<Tree>)
    requires SameFiles([t], [u]) && SameFiles(a, b)
    ensures SameFiles([t] + a, [u] + b)
  {
    FilesCons(t, a);
    FilesCons(u, b);
  }

  lemma SameFilesSwap(t: Tree, u: Tree, rest: seq<Tree>)
    ensures SameFiles([t] + ([u] + rest), [u] + ([t] + rest))
  {
    FilesCons(t, [u] + rest);
    FilesCons(u, rest);
    FilesCons(u, [t] + rest);
    FilesCons(t, rest);
  }

  lemma {:induction false} FilesInsert(t: Tree, sorted: seq<Tree>, leq: Order)
    ensures SameFiles(SortedInsert(t, sorted, leq), [t] + sorted)
    decreases |sorted|
  {
    if sorted != [] && !Before(t, sorted[0], leq) {
      var head, tail := sorted[0], sorted[1..];
      FilesInsert(t, tail, leq);
      SameFilesCons(head, head, SortedInsert(t, tail, leq), [t] + tail);
      SameFilesSwap(t, head, tail);
      assert sorted == [head] + tail;
    }
  }

  lemma {:induction false} FilesSort(ts: seq<Tree>, leq: Order)
    ensures SameFiles(Sort(ts, leq), ts)
    decreases |ts|
  {
    if ts != [] {
      var head, tail := ts[0], ts[1..];
      FilesSort(tail, leq);
      FilesInsert(head, Sort(tail, leq), leq);
      SameFilesCons(head, head, Sort(tail, leq), tail);
      assert ts == [head] + tail;
    }
  }

  lemma FilesMerge(t: Tree)
    ensures Files([Merge(t)]) == Files([t])
  {
    if Merge(t) != t {
      var child := t.children[0];
      assert t.children == [child];
      assert Files(t.children) == Files(child.children);
    }
  }

  lemma FilesOne(t: Tree, children: seq<Tree>)
    requires SameFiles(children, t.children)
    ensures SameFiles([t.(children := children)], [t])
  {
    assert Files([t]) == Own(t) + Files(t.children);
    assert Files([t.(children := children)]) == Own(t) + Files(children);
  }

  lemma FilesCompressNode(t: Tree, leq: Order)
    requires SameFiles(CompressAll(t.children, leq), t.children)
    ensures SameFiles([CompressNode(t, leq)], [t])
  {
    var children := Sort(CompressAll(t.children, leq), leq);
    FilesSort(CompressAll(t.children, leq), leq);
    FilesOne(t, children);
    FilesMerge(t.(children := children));
  }

  lemma {:induction false} FilesCompressAll(ts: seq<Tree>, leq: Order)
    ensures SameFiles(CompressAll(ts, leq), ts)
    decreases ts
  {
    if ts != [] {
      var head, tail := ts[0], ts[1..];
      FilesCompressAll(head.children, leq);
      FilesCompressNode(head, leq);
      FilesCompressAll(tail, leq);
      SameFilesCons(CompressNode(head, leq), head, CompressAll(tail, leq), tail);
      assert ts == [head] + tail;
    }
  }

  /** Sorting and merging neither lose nor add a file. */
  lemma CompressKeepsFiles(ts: seq<Tree>, leq: Order)
    ensures multiset(Files(Compress(ts, leq))) == multiset(Files(ts))
  {
    FilesCompressAll(ts, leq);
    FilesSort(CompressAll(ts, leq), leq);
  }

  /** With distinct paths the review shows every changed file exactly once. */
  lemma ReviewShowsEveryFile(files: seq<File>, leq: Order)
    requires DistinctPaths(files)
    ensures multiset(Files(Shown(files, leq))) == multiset(files)
  {
    BuildKeepsFiles(files);
    CompressKeepsFiles(Build(files), leq);
  }

  /** The file stands in the list and no file after it has its path. */
  ghost predicate IsLast(files: seq<File>, f: File) {
    exists i :: 0 <= i < |files| && files[i] == f && forall j | i < j < |files| :: files[j].path != f.path
  }

  lemma {:induction false} LatestIsLast(files: seq<File>, f: File)
    ensures Latest(files, f.path) == Some(f) <==> IsLast(files, f)
  {
    if files != [] {
      var n := |files| - 1;
      if files[n].path != f.path {
        LatestIsLast(files[..n], f);
      } else if files[n] == f {
        assert IsLast(files, f);
      }
    }
  }

  /** With any files it shows, for each path, the last file given with it. */
  lemma ReviewShowsTheLatest(files: seq<File>, leq: Order, f: File)
    ensures f in Files(Shown(files, leq)) <==> IsLast(files, f)
  {
    CompressKeepsFiles(Build(files), leq);
    BuildHolds(files, f);
    LatestIsLast(files, f);
    assert f in Files(Shown(files, leq)) <==> f in multiset(Files(Shown(files, leq)));
    assert f in Files(Build(files)) <==> f in multiset(Files(Build(files)));
  }
}
