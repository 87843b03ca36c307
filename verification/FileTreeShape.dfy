/** The shape of the review's file tree: names spell paths, chains are merged, leaves are files, levels are sorted. */
module FileTreeShape {
  import opened Options
  import opened Text
  import opened FileTree
  import opened FileTreeTheorems

  /** Every node of the forest, at any depth. */
  ghost predicate All(ts: seq<Tree>, p: Tree -> bool) {
    ts != [] ==> p(ts[0]) && All(ts[0].children, p) && All(ts[1..], p)
  }

  lemma AllCons(t: Tree, ts: seq<Tree>, p: Tree -> bool)
    ensures All([t] + ts, p) <==> p(t) && All(t.children, p) && All(ts, p)
  {
    assert ([t] + ts)[1..] == ts;
  }

  lemma {:induction false} AllInsert(t: Tree, sorted: seq<Tree>, leq: Order, p: Tree -> bool)
    ensures All(SortedInsert(t, sorted, leq), p) <==> p(t) && All(t.children, p) && All(sorted, p)
    decreases |sorted|
  {
    AllCons(t, sorted, p);
    if sorted != [] && !Before(t, sorted[0], leq) {
      AllInsert(t, sorted[1..], leq, p);
      AllCons(sorted[0], SortedInsert(t, sorted[1..], leq), p);
    }
  }

  lemma {:induction false} AllSort(ts: seq<Tree>, leq: Order, p: Tree -> bool)
    ensures All(Sort(ts, leq), p) <==> All(ts, p)
    decreases |ts|
  {
    if ts != [] {
      AllSort(ts[1..], leq, p);
      AllInsert(ts[0], Sort(ts[1..], leq), leq, p);
    }
  }

  lemma {:induction false} SortLength(ts: seq<Tree>, leq: Order)
    ensures |Sort(ts, leq)| == |ts|
    decreases |ts|
  {
    if ts != [] {
      SortLength(ts[1..], leq);
      InsertLength(ts[0], Sort(ts[1..], leq), leq);
    }
  }

  lemma {:induction false} InsertLength(t: Tree, sorted: seq<Tree>, leq: Order)
    ensures |SortedInsert(t, sorted, leq)| == |sorted| + 1
    decreases |sorted|
  {
    if sorted != [] && !Before(t, sorted[0], leq) {
      InsertLength(t, sorted[1..], leq);
    }
  }

  // ---------------------------------------------------------------- chains

  /** Not a directory with a directory as its only child. */
  predicate IsNoChain(t: Tree) {
    !(t.file.None? && |t.children| == 1 && t.children[0].file.None?)
  }

  lemma MergeBreaksChain(t: Tree)
    requires All(t.children, IsNoChain)
    ensures IsNoChain(Merge(t)) && All(Merge(t).children, IsNoChain)
  {
  }

  lemma {:induction false} CompressBreaksChains(ts: seq<Tree>, leq: Order)
    ensures All(CompressAll(ts, leq), IsNoChain)
    decreases ts
  {
    if ts != [] {
      var below := CompressAll(ts[0].children, leq);
      CompressBreaksChains(ts[0].children, leq);
      AllSort(below, leq, IsNoChain);
      var t := ts[0].(children := Sort(below, leq));
      MergeBreaksChain(t);
      CompressBreaksChains(ts[1..], leq);
      AllCons(Merge(t), CompressAll(ts[1..], leq), IsNoChain);
    }
  }

  /** Nowhere in the review does a directory have a directory as its only child. */
  lemma ReviewHasNoChains(files: seq<File>, leq: Order)
    ensures All(Shown(files, leq), IsNoChain)
  {
    CompressBreaksChains(Build(files), leq);
    AllSort(CompressAll(Build(files), leq), leq, IsNoChain);
  }

  // ---------------------------------------------------------------- which nodes are shown

  /** The paths of the nodes that `p` holds of, at any depth, each as often as it occurs. */
  function PathsWhere(ts: seq<Tree>, p: Tree -> bool): multiset<string> {
    if ts == [] then multiset{}
    else
      (if p(ts[0]) then multiset{ts[0].path} else multiset{})
      + PathsWhere(ts[0].children, p) + PathsWhere(ts[1..], p)
  }

  predicate Anything(t: Tree) {
    true
  }

  lemma PathsCons(t: Tree, ts: seq<Tree>, p: Tree -> bool)
    ensures PathsWhere([t] + ts, p) == PathsWhere([t], p) + PathsWhere(ts, p)
  {
    assert ([t] + ts)[1..] == ts && [t][1..] == [];
  }

  ghost predicate SamePaths(a: seq<Tree>, b: seq<Tree>, p: Tree -> bool) {
    PathsWhere(a, p) == PathsWhere(b, p)
  }

  lemma SamePathsCons(t: Tree, a: seq<Tree>, b: seq<Tree>, p: Tree -> bool)
    requires SamePaths(a, b, p)
    ensures SamePaths([t] + a, [t] + b, p)
  {
    PathsCons(t, a, p);
    PathsCons(t, b, p);
  }

  lemma SamePathsSwap(t: Tree, u: Tree, rest: seq<Tree>, p: Tree -> bool)
    ensures SamePaths([t] + ([u] + rest), [u] + ([t] + rest), p)
  {
    PathsCons(t, [u] + rest, p);
    PathsCons(u, rest, p);
    PathsCons(u, [t] + rest, p);
    PathsCons(t, rest, p);
  }

  lemma {:induction false} PathsInsert(t: Tree, sorted: seq<Tree>, leq: Order, p: Tree -> bool)
    ensures SamePaths(SortedInsert(t, sorted, leq), [t] + sorted, p)
    decreases |sorted|
  {
    if sorted != [] && !Before(t, sorted[0], leq) {
      var head, tail := sorted[0], sorted[1..];
      PathsInsert(t, tail, leq, p);
      SamePathsCons(head, SortedInsert(t, tail, leq), [t] + tail, p);
      SamePathsSwap(t, head, tail, p);
      assert sorted == [head] + tail;
    }
  }

  lemma {:induction false} PathsSort(ts: seq<Tree>, leq: Order, p: Tree -> bool)
    ensures SamePaths(Sort(ts, leq), ts, p)
    decreases |ts|
  {
    if ts != [] {
      var head, tail := ts[0], ts[1..];
      PathsSort(tail, leq, p);
      PathsInsert(head, Sort(tail, leq), leq, p);
      SamePathsCons(head, Sort(tail, leq), tail, p);
      assert ts == [head] + tail;
    }
  }

  lemma SortOne(t: Tree, leq: Order)
    ensures Sort([t], leq) == [t]
  {
    assert [t][1..] == [];
    assert Sort([], leq) == [];
  }

  lemma CompressKeepsTheFile(t: Tree, leq: Order)
    ensures CompressNode(t, leq).file == t.file
  {
  }

  /** Compressing what is below a node does not change whether it is a chain. */
  lemma ChainIsKept(t: Tree, leq: Order)
    ensures IsNoChain(t.(children := Sort(CompressAll(t.children, leq), leq))) == IsNoChain(t)
  {
    SortLength(CompressAll(t.children, leq), leq);
    if |t.children| == 1 {
      var child := CompressNode(t.children[0], leq);
      assert CompressAll(t.children, leq) == [child];
      SortOne(child, leq);
      CompressKeepsTheFile(t.children[0], leq);
    }
  }

  lemma PathsMerge(t: Tree)
    ensures PathsWhere([Merge(t)], Anything)
            == (if IsNoChain(t) then multiset{t.path} else multiset{}) + PathsWhere(t.children, Anything)
  {
    assert [Merge(t)][1..] == [];
    assert PathsWhere([Merge(t)], Anything)
        == multiset{Merge(t).path} + PathsWhere(Merge(t).children, Anything) + PathsWhere([], Anything);
    if !IsNoChain(t) {
      assert t.children == [t.children[0]] && t.children[1..] == [];
    }
  }

  lemma PathsCompressNode(t: Tree, leq: Order)
    requires PathsWhere(CompressAll(t.children, leq), Anything) == PathsWhere(t.children, IsNoChain)
    ensures PathsWhere([CompressNode(t, leq)], Anything) == PathsWhere([t], IsNoChain)
  {
    var below := Sort(CompressAll(t.children, leq), leq);
    PathsSort(CompressAll(t.children, leq), leq, Anything);
    ChainIsKept(t, leq);
    PathsMerge(t.(children := below));
    assert [t][1..] == [];
    assert PathsWhere([t], IsNoChain)
        == (if IsNoChain(t) then multiset{t.path} else multiset{})
           + PathsWhere(t.children, IsNoChain) + PathsWhere([], IsNoChain);
  }

  lemma PathsCompressCons(head: Tree, tail: seq<Tree>, leq: Order)
    requires PathsWhere(CompressAll(head.children, leq), Anything) == PathsWhere(head.children, IsNoChain)
    requires PathsWhere(CompressAll(tail, leq), Anything) == PathsWhere(tail, IsNoChain)
    ensures PathsWhere([CompressNode(head, leq)] + CompressAll(tail, leq), Anything)
            == PathsWhere([head] + tail, IsNoChain)
  {
    PathsCompressNode(head, leq);
    PathsCons(CompressNode(head, leq), CompressAll(tail, leq), Anything);
    PathsCons(head, tail, IsNoChain);
  }

  lemma {:induction false} PathsCompressAll(ts: seq<Tree>, leq: Order)
    ensures PathsWhere(CompressAll(ts, leq), Anything) == PathsWhere(ts, IsNoChain)
    decreases ts
  {
    if ts != [] {
      PathsCompressAll(ts[0].children, leq);
      PathsCompressAll(ts[1..], leq);
      PathsCompressCons(ts[0], ts[1..], leq);
      assert ts == [ts[0]] + ts[1..];
    }
  }

  /** The review shows exactly the nodes of the built tree that are not chains: none more, none fewer, none twice. */
  lemma ReviewShowsTheForks(files: seq<File>, leq: Order)
    ensures PathsWhere(Shown(files, leq), Anything) == PathsWhere(Build(files), IsNoChain)
  {
    PathsCompressAll(Build(files), leq);
    PathsSort(CompressAll(Build(files), leq), leq, Anything);
  }

  // ---------------------------------------------------------------- leaves

  predicate FileIsLeaf(t: Tree) {
    t.file.Some? ==> t.children == []
  }

  predicate LeafIsFile(t: Tree) {
    t.children == [] ==> t.file.Some?
  }

  /** Says the same of nodes that agree on being files and on being empty, and holds of directories with children. */
  ghost predicate AboutLeaves(p: Tree -> bool) {
    && (forall t: Tree, u: Tree | t.file.Some? == u.file.Some? && (t.children == [] <==> u.children == []) ::
          p(t) == p(u))
    && (forall t: Tree | t.file.None? && t.children != [] :: p(t))
  }

  lemma MergeKeepsLeaves(t: Tree, p: Tree -> bool)
    requires AboutLeaves(p)
    ensures p(Merge(t)) && All(Merge(t).children, p) <==> p(t) && All(t.children, p)
  {
    if Merge(t) != t {
      var child := t.children[0];
      assert t.children == [child] + [];
      AllCons(child, [], p);
    }
  }

  lemma {:induction false} CompressKeepsLeaves(ts: seq<Tree>, leq: Order, p: Tree -> bool)
    requires AboutLeaves(p)
    ensures All(CompressAll(ts, leq), p) <==> All(ts, p)
    decreases ts
  {
    if ts != [] {
      var below := CompressAll(ts[0].children, leq);
      CompressKeepsLeaves(ts[0].children, leq, p);
      AllSort(below, leq, p);
      SortLength(below, leq);
      var t := ts[0].(children := Sort(below, leq));
      assert p(t) == p(ts[0]);
      MergeKeepsLeaves(t, p);
      CompressKeepsLeaves(ts[1..], leq, p);
      AllCons(Merge(t), CompressAll(ts[1..], leq), p);
    }
  }

  lemma {:induction false} GrownLeaves(ts: seq<Tree>, above: Parts)
    requires Grown(ts, above)
    ensures All(ts, LeafIsFile)
    decreases ts
  {
    if ts != [] {
      GrownLeaves(ts[0].children, above + [ts[0].name]);
      GrownLeaves(ts[1..], above);
    }
  }

  /** Every leaf of the review is a file. */
  lemma ReviewLeavesAreFiles(files: seq<File>, leq: Order)
    ensures All(Shown(files, leq), LeafIsFile)
  {
    BuildGrown(files);
    GrownLeaves(Build(files), []);
    CompressKeepsLeaves(Build(files), leq, LeafIsFile);
    AllSort(CompressAll(Build(files), leq), leq, LeafIsFile);
  }

  /** No path is a directory on the way to another. */
  ghost predicate PrefixFree(files: seq<File>) {
    forall f, g | f in files && g in files :: !(PartsOf(f) < PartsOf(g))
  }

  lemma {:induction false} ForestHasAFile(ts: seq<Tree>, above: Parts)
    requires Grown(ts, above) && ts != []
    ensures Files(ts) != []
    decreases ts
  {
    if ts[0].file.None? {
      ForestHasAFile(ts[0].children, above + [ts[0].name]);
    }
  }

  /** A file with something below it is a directory on the way to another file. */
  lemma {:induction false} InnerFileIsPrefix(ts: seq<Tree>, above: Parts)
    requires Grown(ts, above) && !All(ts, FileIsLeaf)
    ensures exists f, g :: f in Files(ts) && g in Files(ts) && PartsOf(f) < PartsOf(g)
    decreases ts
  {
    var t := ts[0];
    if !FileIsLeaf(t) {
      ForestHasAFile(t.children, above + [t.name]);
      var f, g := t.file.value, Files(t.children)[0];
      FilesStand(t.children, above + [t.name], g);
      assert PartsOf(f) < PartsOf(g);
      assert f in Files(ts) && g in Files(ts);
    } else if !All(t.children, FileIsLeaf) {
      InnerFileIsPrefix(t.children, above + [t.name]);
    } else {
      InnerFileIsPrefix(ts[1..], above);
    }
  }

  /** Two files on one way down: the first of them is not a leaf. */
  lemma {:induction false} PrefixIsInner(ts: seq<Tree>, q: Parts, r: Parts)
    requires q != [] && q < r && Lookup(ts, q) != None && Lookup(ts, r) != None
    ensures !All(ts, FileIsLeaf)
    decreases |q|, ts
  {
    assert q[0] == r[0];
    if ts[0].name != q[0] {
      PrefixIsInner(ts[1..], q, r);
    } else if |q| > 1 {
      PrefixIsInner(ts[0].children, q[1..], r[1..]);
    }
  }

  lemma BuildLeaves(files: seq<File>)
    ensures All(Build(files), FileIsLeaf) <==> PrefixFree(files)
  {
    BuildGrown(files);
    if !All(Build(files), FileIsLeaf) {
      InnerFileIsPrefix(Build(files), []);
      var f, g :| f in Files(Build(files)) && g in Files(Build(files)) && PartsOf(f) < PartsOf(g);
      BuildHolds(files, f);
      BuildHolds(files, g);
      LatestIsGiven(files, f.path);
      LatestIsGiven(files, g.path);
    }
    if !PrefixFree(files) {
      var f, g :| f in files && g in files && PartsOf(f) < PartsOf(g);
      GivenHasLatest(files, f);
      GivenHasLatest(files, g);
      BuildFinds(files, f.path);
      BuildFinds(files, g.path);
      PrefixIsInner(Build(files), PartsOf(f), PartsOf(g));
    }
  }

  lemma {:induction false} LatestIsGiven(files: seq<File>, path: string)
    ensures Latest(files, path).Some? ==> Latest(files, path).value in files
  {
    if files != [] {
      LatestIsGiven(files[..|files| - 1], path);
      assert files == files[..|files| - 1] + [files[|files| - 1]];
    }
  }

  lemma {:induction false} GivenHasLatest(files: seq<File>, f: File)
    requires f in files
    ensures Latest(files, f.path).Some?
  {
    var front, last := files[..|files| - 1], files[|files| - 1];
    assert files == front + [last];
    if last.path != f.path {
      GivenHasLatest(front, f);
    }
  }

  /** The files of the review are exactly its leaves if and only if no path is a directory on the way to another. */
  lemma FilesAreLeavesIff(files: seq<File>, leq: Order)
    ensures All(Shown(files, leq), FileIsLeaf) <==> PrefixFree(files)
  {
    BuildLeaves(files);
    CompressKeepsLeaves(Build(files), leq, FileIsLeaf);
    AllSort(CompressAll(Build(files), leq), leq, FileIsLeaf);
  }

  // ---------------------------------------------------------------- names spell paths

  /** The path of a node: its name, under the path of its parent unless it is at the top. */
  function Spelling(top: bool, above: string, name: string): string {
    if top then name else above + "/" + name
  }

  ghost predicate Spelled(ts: seq<Tree>, top: bool, above: string) {
    ts != [] ==>
      && ts[0].path == Spelling(top, above, ts[0].name)
      && Spelled(ts[0].children, false, ts[0].path)
      && Spelled(ts[1..], top, above)
  }

  lemma {:induction false} JoinSnoc(above: Parts, name: string)
    ensures Join(above + [name], '/') == if above == [] then name else Join(above, '/') + "/" + name
  {
    if above == [] {
      assert [] + [name] == [name];
    } else if |above| > 1 {
      JoinSnoc(above[1..], name);
      assert (above + [name])[1..] == above[1..] + [name];
    } else {
      assert (above + [name])[1..] == [name];
    }
  }

  lemma {:induction false} GrownIsSpelled(ts: seq<Tree>, above: Parts)
    requires Grown(ts, above)
    ensures Spelled(ts, above == [], Join(above, '/'))
    decreases ts
  {
    if ts != [] {
      JoinSnoc(above, ts[0].name);
      GrownIsSpelled(ts[0].children, above + [ts[0].name]);
      GrownIsSpelled(ts[1..], above);
    }
  }

  lemma SpelledCons(t: Tree, ts: seq<Tree>, top: bool, above: string)
    ensures Spelled([t] + ts, top, above)
            <==> t.path == Spelling(top, above, t.name) && Spelled(t.children, false, t.path) && Spelled(ts, top, above)
  {
    assert ([t] + ts)[1..] == ts;
  }

  lemma {:induction false} SpelledInsert(t: Tree, sorted: seq<Tree>, leq: Order, top: bool, above: string)
    requires t.path == Spelling(top, above, t.name) && Spelled(t.children, false, t.path) && Spelled(sorted, top, above)
    ensures Spelled(SortedInsert(t, sorted, leq), top, above)
    decreases |sorted|
  {
    SpelledCons(t, sorted, top, above);
    if sorted != [] && !Before(t, sorted[0], leq) {
      SpelledInsert(t, sorted[1..], leq, top, above);
      SpelledCons(sorted[0], SortedInsert(t, sorted[1..], leq), top, above);
    }
  }

  lemma {:induction false} SpelledSort(ts: seq<Tree>, leq: Order, top: bool, above: string)
    requires Spelled(ts, top, above)
    ensures Spelled(Sort(ts, leq), top, above)
    decreases |ts|
  {
    if ts != [] {
      SpelledSort(ts[1..], leq, top, above);
      SpelledInsert(ts[0], Sort(ts[1..], leq), leq, top, above);
    }
  }

  lemma MergeIsSpelled(t: Tree, top: bool, above: string)
    requires t.path == Spelling(top, above, t.name) && Spelled(t.children, false, t.path)
    ensures Merge(t).path == Spelling(top, above, Merge(t).name) && Spelled(Merge(t).children, false, Merge(t).path)
  {
    if Merge(t) != t {
      var child := t.children[0];
      assert child.path == t.path + "/" + child.name;
      assert above + "/" + t.name + "/" + child.name == above + "/" + (t.name + "/" + child.name);
    }
  }

  lemma {:induction false} CompressIsSpelled(ts: seq<Tree>, leq: Order, top: bool, above: string)
    requires Spelled(ts, top, above)
    ensures Spelled(CompressAll(ts, leq), top, above)
    decreases ts
  {
    if ts != [] {
      var below := CompressAll(ts[0].children, leq);
      CompressIsSpelled(ts[0].children, leq, false, ts[0].path);
      SpelledSort(below, leq, false, ts[0].path);
      var t := ts[0].(children := Sort(below, leq));
      MergeIsSpelled(t, top, above);
      CompressIsSpelled(ts[1..], leq, top, above);
      SpelledCons(Merge(t), CompressAll(ts[1..], leq), top, above);
    }
  }

  /** In the review the names from the top down, joined by slashes, spell every node's path. */
  lemma ReviewIsSpelled(files: seq<File>, leq: Order)
    ensures Spelled(Shown(files, leq), true, "")
  {
    BuildGrown(files);
    GrownIsSpelled(Build(files), []);
    CompressIsSpelled(Build(files), leq, true, "");
    SpelledSort(CompressAll(Build(files), leq), leq, true, "");
  }

  // ---------------------------------------------------------------- levels are sorted

  /** `leq` is a total preorder of names. */
  ghost predicate Orders(leq: Order) {
    && (forall a: string, b: string :: leq(a, b) || leq(b, a))
    && (forall a: string, b: string, c: string | leq(a, b) && leq(b, c) :: leq(a, c))
  }

  /** Directories stand above files, and nodes of one kind in the order of their shown names. */
  predicate InOrder(above: Tree, below: Tree, leq: Order) {
    && (above.file.Some? ==> below.file.Some?)
    && (above.file.Some? == below.file.Some? ==> leq(above.name, below.name))
  }

  predicate Sorted(ts: seq<Tree>, leq: Order) {
    forall i, j | 0 <= i < j < |ts| :: InOrder(ts[i], ts[j], leq)
  }

  lemma BeforeIsTransitive(a: Tree, b: Tree, c: Tree, leq: Order)
    requires Orders(leq) && Before(a, b, leq) && Before(b, c, leq)
    ensures Before(a, c, leq)
  {
  }

  lemma {:induction false} InsertSorted(t: Tree, sorted: seq<Tree>, leq: Order)
    requires Orders(leq) && Sorted(sorted, leq)
    ensures Sorted(SortedInsert(t, sorted, leq), leq)
    ensures forall s | s in SortedInsert(t, sorted, leq) :: s == t || s in sorted
    decreases |sorted|
  {
    if sorted == [] {
    } else if Before(t, sorted[0], leq) {
      forall j | 0 <= j < |sorted| ensures InOrder(t, sorted[j], leq) {
        if j > 0 {
          BeforeIsTransitive(t, sorted[0], sorted[j], leq);
        }
      }
    } else {
      InsertSorted(t, sorted[1..], leq);
      var rest := SortedInsert(t, sorted[1..], leq);
      forall s | s in rest ensures InOrder(sorted[0], s, leq) {
        if s != t {
          var j :| 0 <= j < |sorted[1..]| && sorted[1..][j] == s;
          assert s == sorted[j + 1];
        }
      }
    }
  }

  lemma {:induction false} SortSorts(ts: seq<Tree>, leq: Order)
    requires Orders(leq)
    ensures Sorted(Sort(ts, leq), leq)
    decreases |ts|
  {
    if ts != [] {
      SortSorts(ts[1..], leq);
      InsertSorted(ts[0], Sort(ts[1..], leq), leq);
    }
  }

  function HasSortedChildren(leq: Order): Tree -> bool {
    (t: Tree) => Sorted(t.children, leq)
  }

  lemma {:induction false} CompressSorts(ts: seq<Tree>, leq: Order)
    requires Orders(leq)
    ensures All(CompressAll(ts, leq), HasSortedChildren(leq))
    decreases ts
  {
    if ts != [] {
      var p, below := HasSortedChildren(leq), CompressAll(ts[0].children, leq);
      CompressSorts(ts[0].children, leq);
      AllSort(below, leq, p);
      SortSorts(below, leq);
      var t := ts[0].(children := Sort(below, leq));
      if Merge(t) != t {
        assert t.children == [t.children[0]] + [];
        AllCons(t.children[0], [], p);
      }
      CompressSorts(ts[1..], leq);
      AllCons(Merge(t), CompressAll(ts[1..], leq), p);
    }
  }

  /** At every level directories come before files, each in the locale's order of their shown names. */
  lemma ReviewIsSorted(files: seq<File>, leq: Order)
    requires Orders(leq)
    ensures Sorted(Shown(files, leq), leq) && All(Shown(files, leq), HasSortedChildren(leq))
  {
    CompressSorts(Build(files), leq);
    AllSort(CompressAll(Build(files), leq), leq, HasSortedChildren(leq));
    SortSorts(CompressAll(Build(files), leq), leq);
  }

  /** Two nodes of one kind whose names the locale does not tell apart. */
  predicate Ties(t: Tree, x: Tree, leq: Order) {
    t.file.None? == x.file.None? && leq(t.name, x.name) && leq(x.name, t.name)
  }

  /** The nodes that tie with `x`, in order. */
  function Tied(ts: seq<Tree>, x: Tree, leq: Order): seq<Tree> {
    if ts == [] then [] else (if Ties(ts[0], x, leq) then [ts[0]] else []) + Tied(ts[1..], x, leq)
  }

  lemma TiedCons(t: Tree, ts: seq<Tree>, x: Tree, leq: Order)
    ensures Tied([t] + ts, x, leq) == (if Ties(t, x, leq) then [t] else []) + Tied(ts, x, leq)
  {
    assert ([t] + ts)[1..] == ts;
  }

  lemma {:induction false} InsertIsStable(t: Tree, sorted: seq<Tree>, x: Tree, leq: Order)
    requires Orders(leq)
    ensures Tied(SortedInsert(t, sorted, leq), x, leq) == (if Ties(t, x, leq) then [t] else []) + Tied(sorted, x, leq)
    decreases |sorted|
  {
    if sorted == [] || Before(t, sorted[0], leq) {
      TiedCons(t, sorted, x, leq);
    } else {
      InsertIsStable(t, sorted[1..], x, leq);
      TiedCons(sorted[0], SortedInsert(t, sorted[1..], leq), x, leq);
      if Ties(t, x, leq) && Ties(sorted[0], x, leq) {
        BeforeIsTransitive(t, x, sorted[0], leq);
      }
    }
  }

  /** Sorting keeps the order of nodes whose names the locale does not tell apart. */
  lemma {:induction false} SortIsStable(ts: seq<Tree>, x: Tree, leq: Order)
    requires Orders(leq)
    ensures Tied(Sort(ts, leq), x, leq) == Tied(ts, x, leq)
    decreases |ts|
  {
    if ts != [] {
      SortIsStable(ts[1..], x, leq);
      InsertIsStable(ts[0], Sort(ts[1..], leq), x, leq);
    }
  }

  // ---------------------------------------------------------------- files under their own paths

  predicate HasItsFile(t: Tree) {
    t.file.Some? ==> t.file.value.path == t.path
  }

  lemma ProperHasItsFile(t: Tree, above: Parts)
    requires Proper(t, above)
    ensures HasItsFile(t)
  {
    if t.file.Some? {
      JoinSplit(t.file.value.path, '/');
    }
  }

  lemma {:induction false} GrownHaveTheirFiles(ts: seq<Tree>, above: Parts)
    requires Grown(ts, above)
    ensures All(ts, HasItsFile)
    decreases ts
  {
    if ts != [] {
      ProperHasItsFile(ts[0], above);
      GrownHaveTheirFiles(ts[0].children, above + [ts[0].name]);
      GrownHaveTheirFiles(ts[1..], above);
    }
  }

  lemma MergeKeepsItsFile(t: Tree)
    requires HasItsFile(t) && All(t.children, HasItsFile)
    ensures HasItsFile(Merge(t)) && All(Merge(t).children, HasItsFile)
  {
  }

  lemma {:induction false} CompressKeepsTheirFiles(ts: seq<Tree>, leq: Order)
    requires All(ts, HasItsFile)
    ensures All(CompressAll(ts, leq), HasItsFile)
    decreases ts
  {
    if ts != [] {
      var t := ts[0];
      var below := CompressAll(t.children, leq);
      CompressKeepsTheirFiles(t.children, leq);
      AllSort(below, leq, HasItsFile);
      MergeKeepsItsFile(t.(children := Sort(below, leq)));
      CompressKeepsTheirFiles(ts[1..], leq);
      AllCons(CompressNode(t, leq), CompressAll(ts[1..], leq), HasItsFile);
    }
  }

  /** Every node of the review that shows a file shows the file of its own path. */
  lemma ReviewShowsFilesInPlace(files: seq<File>, leq: Order)
    ensures All(Shown(files, leq), HasItsFile)
  {
    BuildGrown(files);
    GrownHaveTheirFiles(Build(files), []);
    CompressKeepsTheirFiles(Build(files), leq);
    AllSort(CompressAll(Build(files), leq), leq, HasItsFile);
  }
}
