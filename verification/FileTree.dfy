/** The changed files of a review as a tree of directories, with chains of single directories merged. */
module FileTree {
  import opened Options
  import opened Sequences
  import opened Text

  /** A changed file; `id` tells files apart that share a path. */
  datatype File = File(path: string, id: nat)

  datatype Tree = Node(path: string, name: string, file: Option<File>, children: seq<Tree>)

  type Parts = seq<string>

  function PartsOf(file: File): (parts: Parts)
    ensures parts != []
  {
    Split(file.path, '/')
  }

  // ---------------------------------------------------------------- building

  /** The position of the child with this path, or the number of children. */
  function FindChild(children: seq<Tree>, path: string): (i: nat)
    ensures i <= |children|
    ensures i < |children| ==> children[i].path == path
    ensures forall j | 0 <= j < i :: children[j].path != path
  {
    if children == [] || children[0].path == path then 0 else 1 + FindChild(children[1..], path)
  }

  function PathTo(parts: Parts, i: nat): string
    requires i < |parts|
  {
    Join(parts[..i + 1], '/')
  }

  /** The child on the way to part `i`, made if it is not there. */
  function ChildFor(children: seq<Tree>, parts: Parts, i: nat): Tree
    requires i < |parts|
  {
    var k := FindChild(children, PathTo(parts, i));
    if k < |children| then children[k] else Node(PathTo(parts, i), parts[i], None, [])
  }

  /** Puts back a child at its place, or at the end if it is new. */
  function PutChild(children: seq<Tree>, child: Tree): seq<Tree> {
    var k := FindChild(children, child.path);
    if k < |children| then children[k := child] else children + [child]
  }

  /** Walks down from part `i`, making nodes where they are missing, and leaves the file at the end. */
  function Insert(children: seq<Tree>, parts: Parts, i: nat, file: File): seq<Tree>
    requires i < |parts|
    decreases |parts| - i, 1
  {
    PutChild(children, Descend(ChildFor(children, parts, i), parts, i, file))
  }

  /** The node of part `i` once the rest of the path has been walked below it. */
  function Descend(child: Tree, parts: Parts, i: nat, file: File): Tree
    requires i < |parts|
    decreases |parts| - i, 0
  {
    if i == |parts| - 1 then child.(file := Some(file))
    else child.(children := Insert(child.children, parts, i + 1, file))
  }

  function Build(files: seq<File>): seq<Tree> {
    if files == [] then []
    else Insert(Build(files[..|files| - 1]), PartsOf(files[|files| - 1]), 0, files[|files| - 1])
  }

  // ---------------------------------------------------------------- sorting and compressing

  type Order = (string, string) -> bool

  /** Directories before files, and then by name; `leq` is the locale's order. */
  predicate Before(a: Tree, b: Tree, leq: Order) {
    if a.file.None? != b.file.None? then a.file.None? else leq(a.name, b.name)
  }

  function SortedInsert(t: Tree, sorted: seq<Tree>, leq: Order): seq<Tree> {
    if sorted == [] || Before(t, sorted[0], leq) then [t] + sorted
    else [sorted[0]] + SortedInsert(t, sorted[1..], leq)
  }

  /** A stable sort. */
  function Sort(ts: seq<Tree>, leq: Order): seq<Tree> {
    if ts == [] then [] else SortedInsert(ts[0], Sort(ts[1..], leq), leq)
  }

  /** A directory whose only child is a directory gives way to it, under both names. */
  function Merge(t: Tree): Tree {
    if t.file.None? && |t.children| == 1 && t.children[0].file.None? then
      t.children[0].(name := t.name + "/" + t.children[0].name)
    else t
  }

  /** Compresses what is below a node, and then the node itself. */
  function CompressNode(t: Tree, leq: Order): Tree
    decreases t, 0
  {
    Merge(t.(children := Sort(CompressAll(t.children, leq), leq)))
  }

  function CompressAll(ts: seq<Tree>, leq: Order): (r: seq<Tree>)
    ensures |r| == |ts| && forall i | 0 <= i < |ts| :: r[i] == CompressNode(ts[i], leq)
    decreases ts, 1
  {
    if ts == [] then []
    else
      assert forall i | 1 <= i < |ts| :: ts[i] == ts[1..][i - 1];
      [CompressNode(ts[0], leq)] + CompressAll(ts[1..], leq)
  }

  function Compress(ts: seq<Tree>, leq: Order): seq<Tree> {
    Sort(CompressAll(ts, leq), leq)
  }

  /** What the review shows. */
  function Shown(files: seq<File>, leq: Order): seq<Tree> {
    Compress(Build(files), leq)
  }

  // ---------------------------------------------------------------- shape

  /** A node under the directories `above`: its path spells its parts, and it is a file or is not empty. */
  ghost predicate Proper(t: Tree, above: Parts) {
    && '/' !in t.name
    && t.path == Join(above + [t.name], '/')
    && (t.file.Some? ==> PartsOf(t.file.value) == above + [t.name])
    && (t.file.None? ==> t.children != [])
  }

  /** A forest of proper nodes whose names tell siblings apart. */
  ghost predicate Grown(ts: seq<Tree>, above: Parts) {
    ts != [] ==>
      && Proper(ts[0], above)
      && Grown(ts[0].children, above + [ts[0].name])
      && (forall s | s in ts[1..] :: s.name != ts[0].name)
      && Grown(ts[1..], above)
  }

  /** The file found by following the parts down. */
  function Lookup(ts: seq<Tree>, parts: Parts): Option<File>
    requires parts != []
    decreases |parts|, ts
  {
    if ts == [] then None
    else if ts[0].name == parts[0] then
      (if |parts| == 1 then ts[0].file else Lookup(ts[0].children, parts[1..]))
    else Lookup(ts[1..], parts)
  }

  lemma {:induction false} GrownAt(ts: seq<Tree>, above: Parts, i: nat)
    requires Grown(ts, above) && i < |ts|
    ensures Proper(ts[i], above) && Grown(ts[i].children, above + [ts[i].name])
    ensures forall j | 0 <= j < |ts| && j != i :: ts[j].name != ts[i].name
    decreases i
  {
    if i == 0 {
      forall j | 0 < j < |ts| ensures ts[j].name != ts[0].name {
        assert ts[j] == ts[1..][j - 1];
      }
    } else {
      GrownAt(ts[1..], above, i - 1);
      assert ts[i] == ts[1..][i - 1];
      assert ts[i] in ts[1..];
      forall j | 0 <= j < |ts| && j != i ensures ts[j].name != ts[i].name {
        assert j > 0 ==> ts[j] == ts[1..][j - 1];
      }
    }
  }

  /** Plain parts: none contains the separator. */
  ghost predicate Plain(parts: Parts) {
    forall p | p in parts :: '/' !in p
  }

  lemma JoinIsInjective(a: Parts, b: Parts)
    requires a != [] && b != [] && Plain(a) && Plain(b) && Join(a, '/') == Join(b, '/')
    ensures a == b
  {
    SplitJoin(a, '/');
    SplitJoin(b, '/');
  }

  lemma PartsArePlain(file: File)
    ensures Plain(PartsOf(file))
  {
  }

  lemma NamesDiffer(above: Parts, a: string, b: string)
    requires Plain(above) && '/' !in a && '/' !in b
    ensures Join(above + [a], '/') == Join(above + [b], '/') <==> a == b
  {
    if Join(above + [a], '/') == Join(above + [b], '/') {
      JoinIsInjective(above + [a], above + [b]);
      assert (above + [a])[|above|] == (above + [b])[|above|];
    }
  }

  /** Under the same directories, paths agree exactly if names do. */
  lemma SamePath(a: Tree, b: Tree, above: Parts)
    requires Proper(a, above) && Proper(b, above) && Plain(above)
    ensures a.path == b.path <==> a.name == b.name
  {
    NamesDiffer(above, a.name, b.name);
  }

  lemma PutStep(ts: seq<Tree>, child: Tree)
    requires ts != []
    ensures PutChild(ts, child)
            == if ts[0].path == child.path then [child] + ts[1..] else [ts[0]] + PutChild(ts[1..], child)
  {
    if ts[0].path != child.path {
      var k := FindChild(ts[1..], child.path);
      assert FindChild(ts, child.path) == 1 + k;
    }
  }

  /** One child put in its place keeps the forest grown. */
  lemma {:induction false} PutGrown(ts: seq<Tree>, above: Parts, child: Tree)
    requires Grown(ts, above) && Plain(above) && Proper(child, above) && Grown(child.children, above + [child.name])
    ensures Grown(PutChild(ts, child), above)
    ensures forall s | s in PutChild(ts, child) :: s.name == child.name || s in ts
    decreases |ts|
  {
    if ts == [] {
      assert PutChild(ts, child) == [child];
    } else {
      SamePath(ts[0], child, above);
      PutStep(ts, child);
      if ts[0].name != child.name {
        PutGrown(ts[1..], above, child);
        var rest := PutChild(ts[1..], child);
        assert PutChild(ts, child)[1..] == rest;
      } else {
        assert PutChild(ts, child)[1..] == ts[1..];
      }
    }
  }

  lemma LookupCons(t: Tree, ts: seq<Tree>, q: Parts)
    requires q != []
    ensures Lookup([t] + ts, q)
            == if t.name != q[0] then Lookup(ts, q) else if |q| == 1 then t.file else Lookup(t.children, q[1..])
  {
    assert ([t] + ts)[1..] == ts;
  }

  /** It changes only what is found through that child. */
  lemma {:induction false} LookupPut(ts: seq<Tree>, above: Parts, child: Tree, q: Parts)
    requires Grown(ts, above) && Plain(above) && Proper(child, above) && q != []
    ensures Lookup(PutChild(ts, child), q)
            == if q[0] != child.name then Lookup(ts, q)
               else if |q| == 1 then child.file else Lookup(child.children, q[1..])
    decreases |ts|
  {
    if ts == [] {
      assert PutChild(ts, child) == [child] + [];
      LookupCons(child, [], q);
    } else {
      SamePath(ts[0], child, above);
      PutStep(ts, child);
      assert ts == [ts[0]] + ts[1..];
      LookupCons(ts[0], ts[1..], q);
      if ts[0].name != child.name {
        LookupPut(ts[1..], above, child, q);
        LookupCons(ts[0], PutChild(ts[1..], child), q);
      } else {
        LookupCons(child, ts[1..], q);
      }
    }
  }

  lemma {:induction false} LookupAt(ts: seq<Tree>, above: Parts, k: nat, q: Parts)
    requires Grown(ts, above) && k < |ts| && q != [] && q[0] == ts[k].name
    ensures Lookup(ts, q) == if |q| == 1 then ts[k].file else Lookup(ts[k].children, q[1..])
    decreases k
  {
    GrownAt(ts, above, k);
    if k > 0 {
      assert ts[k] == ts[1..][k - 1];
      LookupAt(ts[1..], above, k - 1, q);
    }
  }

  lemma {:induction false} LookupNone(ts: seq<Tree>, q: Parts)
    requires q != [] && forall k | 0 <= k < |ts| :: ts[k].name != q[0]
    ensures Lookup(ts, q) == None
    decreases |ts|
  {
    if ts != [] {
      forall k | 0 <= k < |ts| - 1 ensures ts[1..][k].name != q[0] {
        assert ts[1..][k] == ts[k + 1];
      }
      LookupNone(ts[1..], q);
    }
  }

  lemma PlainPrefix(parts: Parts, i: nat)
    requires Plain(parts) && i < |parts|
    ensures Plain(parts[..i]) && '/' !in parts[i]
  {
  }

  lemma FoundChild(ts: seq<Tree>, above: Parts, parts: Parts, i: nat, j: nat)
    requires Grown(ts, above) && Plain(parts) && i < |parts| && above == parts[..i] && j < |ts|
    ensures Proper(ts[j], above) && Grown(ts[j].children, above + [ts[j].name])
    ensures PathTo(parts, i) == Join(above + [parts[i]], '/')
    ensures ts[j].path == PathTo(parts, i) <==> ts[j].name == parts[i]
  {
    PrefixGrows(parts, i);
    PlainPrefix(parts, i);
    GrownAt(ts, above, j);
    NamesDiffer(above, ts[j].name, parts[i]);
  }

  /** The child on the way: the one of that name, or a new empty one. */
  lemma ChildForIs(ts: seq<Tree>, above: Parts, parts: Parts, i: nat)
    requires Grown(ts, above) && Plain(parts) && i < |parts| && above == parts[..i]
    ensures var child := ChildFor(ts, parts, i);
      && child.name == parts[i] && child.path == Join(above + [parts[i]], '/')
      && Grown(child.children, above + [parts[i]])
      && (child.file.Some? ==> PartsOf(child.file.value) == above + [parts[i]])
  {
    var k := FindChild(ts, PathTo(parts, i));
    if k < |ts| {
      FoundChild(ts, above, parts, i, k);
    } else {
      assert parts[..i + 1] == above + [parts[i]];
    }
  }

  /** What is found through that child. */
  lemma LookupChild(ts: seq<Tree>, above: Parts, parts: Parts, i: nat, q: Parts)
    requires Grown(ts, above) && Plain(parts) && i < |parts| && above == parts[..i]
    requires q != [] && q[0] == parts[i]
    ensures var child := ChildFor(ts, parts, i);
      Lookup(ts, q) == if |q| == 1 then child.file else Lookup(child.children, q[1..])
  {
    var k := FindChild(ts, PathTo(parts, i));
    if k < |ts| {
      FoundChild(ts, above, parts, i, k);
      LookupAt(ts, above, k, q);
    } else {
      forall j | 0 <= j < |ts| ensures ts[j].name != q[0] {
        FoundChild(ts, above, parts, i, j);
      }
      LookupNone(ts, q);
    }
  }

  /** The node stands under this name below `above`. */
  ghost predicate Stands(node: Tree, above: Parts, name: string) {
    node.name == name && Proper(node, above) && Grown(node.children, above + [name])
  }

  /** The node to put back, given that the children below it were grown. */
  lemma DescendIsProper(child: Tree, above: Parts, parts: Parts, i: nat, file: File)
    requires Plain(parts) && i < |parts| && above == parts[..i] && parts == PartsOf(file)
    requires child.name == parts[i] && child.path == Join(above + [parts[i]], '/')
    requires Grown(child.children, above + [parts[i]])
    requires child.file.Some? ==> PartsOf(child.file.value) == above + [parts[i]]
    requires i < |parts| - 1 ==> var below := Insert(child.children, parts, i + 1, file);
                                 below != [] && Grown(below, above + [parts[i]])
    ensures Stands(Descend(child, parts, i, file), above, parts[i])
  {
    assert parts[..i + 1] == above + [parts[i]] && parts[i] in parts;
    if i == |parts| - 1 {
      assert parts == above + [parts[i]];
    }
  }

  lemma PutStands(ts: seq<Tree>, above: Parts, node: Tree, name: string)
    requires Grown(ts, above) && Plain(above) && Stands(node, above, name)
    ensures Grown(PutChild(ts, node), above) && PutChild(ts, node) != []
  {
    PutGrown(ts, above, node);
  }

  lemma {:induction false} InsertGrown(ts: seq<Tree>, above: Parts, parts: Parts, i: nat, file: File)
    requires Grown(ts, above) && Plain(parts) && i < |parts| && above == parts[..i] && parts == PartsOf(file)
    ensures Grown(Insert(ts, parts, i, file), above) && Insert(ts, parts, i, file) != []
    ensures Stands(Descend(ChildFor(ts, parts, i), parts, i, file), above, parts[i])
    decreases |parts| - i
  {
    ChildForIs(ts, above, parts, i);
    var child := ChildFor(ts, parts, i);
    if i < |parts| - 1 {
      PrefixGrows(parts, i);
      InsertGrown(child.children, above + [parts[i]], parts, i + 1, file);
    }
    DescendIsProper(child, above, parts, i, file);
    PutStands(ts, above, Descend(child, parts, i, file), parts[i]);
  }

  /** From then on the file is what its path leads to, and nothing else has changed. */
  lemma {:induction false} LookupInsert(ts: seq<Tree>, above: Parts, parts: Parts, i: nat, file: File, q: Parts)
    requires Grown(ts, above) && Plain(parts) && i < |parts| && above == parts[..i] && parts == PartsOf(file) && q != []
    ensures Lookup(Insert(ts, parts, i, file), q) == if q == parts[i..] then Some(file) else Lookup(ts, q)
    decreases |parts| - i
  {
    InsertGrown(ts, above, parts, i, file);
    var child := ChildFor(ts, parts, i);
    LookupPut(ts, above, Descend(child, parts, i, file), q);
    DropSplits(parts, i);
    DropSplits(q, 0);
    if q[0] == parts[i] {
      LookupChild(ts, above, parts, i, q);
      if |q| > 1 && i < |parts| - 1 {
        ChildForIs(ts, above, parts, i);
        PrefixGrows(parts, i);
        LookupInsert(child.children, above + [parts[i]], parts, i + 1, file, q[1..]);
      }
    }
  }

  // ---------------------------------------------------------------- the built tree

  /** The last file of the list with this path. */
  function Latest(files: seq<File>, path: string): Option<File> {
    if files == [] then None
    else if files[|files| - 1].path == path then Some(files[|files| - 1])
    else Latest(files[..|files| - 1], path)
  }

  lemma BuildNext(files: seq<File>, n: nat)
    requires n < |files|
    ensures Build(files[..n + 1]) == Insert(Build(files[..n]), PartsOf(files[n]), 0, files[n])
  {
    assert files[..n + 1][..n] == files[..n];
  }

  lemma {:induction false} BuildGrown(files: seq<File>)
    ensures Grown(Build(files), [])
  {
    if files != [] {
      var n := |files| - 1;
      BuildGrown(files[..n]);
      PartsArePlain(files[n]);
      InsertGrown(Build(files[..n]), [], PartsOf(files[n]), 0, files[n]);
    }
  }

  lemma SameParts(a: string, b: string)
    ensures Split(a, '/') == Split(b, '/') <==> a == b
  {
    JoinSplit(a, '/');
    JoinSplit(b, '/');
  }

  /** Following a path down the tree leads to the last file given with that path, if any. */
  lemma {:induction false} BuildFinds(files: seq<File>, path: string)
    ensures Lookup(Build(files), Split(path, '/')) == Latest(files, path)
  {
    if files != [] {
      var n := |files| - 1;
      var file, parts := files[n], PartsOf(files[n]);
      BuildFinds(files[..n], path);
      BuildGrown(files[..n]);
      PartsArePlain(file);
      LookupInsert(Build(files[..n]), [], parts, 0, file, Split(path, '/'));
      SameParts(path, file.path);
      assert parts[0..] == parts;
    }
  }
}
