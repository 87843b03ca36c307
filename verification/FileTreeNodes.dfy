/**
 * The file tree as it is built: nodes are objects, a file is added by walking down from the root, and
 * children are pushed onto the node reached. It is proved against the functions of FileTree.
 */
module FileTreeNodes {
  import opened Options
  import opened Sequences
  import opened Text
  import opened FileTree

  class TreeNode {
    const path: string
    const name: string
    var file: Option<File>
    var children: seq<TreeNode>
    ghost var Repr: set<TreeNode>

    constructor (path: string, name: string)
      ensures Valid() && fresh(Repr) && Value() == Node(path, name, None, [])
    {
      this.path, this.name, file, children := path, name, None, [];
      Repr := {this};
    }

    ghost predicate Valid()
      reads this, Repr
      ensures Valid() ==> this in Repr
      decreases Repr, 0
    {
      this in Repr && Forest(children, Repr - {this})
    }

    ghost function Value(): Tree
      requires Valid()
      reads this, Repr
      decreases Repr, 0
    {
      Node(path, name, file, Values(children, Repr - {this}))
    }
  }

  /** Separate subtrees inside `region`. */
  ghost predicate Forest(ns: seq<TreeNode>, region: set<TreeNode>)
    reads region
    decreases region, 1
  {
    && (forall i | 0 <= i < |ns| :: ns[i] in region && ns[i].Repr <= region && ns[i].Valid())
    && (forall i, j | 0 <= i < j < |ns| :: ns[i].Repr !! ns[j].Repr)
  }

  ghost function Values(ns: seq<TreeNode>, region: set<TreeNode>): (ts: seq<Tree>)
    requires Forest(ns, region)
    reads region
    ensures |ts| == |ns| && forall i | 0 <= i < |ns| :: ts[i] == ns[i].Value()
    decreases region, 1, |ns|
  {
    if ns == [] then [] else Values(ns[..|ns| - 1], region) + [ns[|ns| - 1].Value()]
  }

  /** Position of the first child with this path. */
  method FindNode(ns: seq<TreeNode>, path: string, ghost region: set<TreeNode>) returns (k: nat)
    requires Forest(ns, region)
    ensures k == FindChild(Values(ns, region), path) <= |ns|
  {
    k := 0;
    ghost var ts := Values(ns, region);
    while k < |ns| && ns[k].path != path
      invariant k <= |ns|
      invariant FindChild(ts, path) == k + FindChild(ts[k..], path)
    {
      assert ts[k].path == ns[k].path;
      assert ts[k..][1..] == ts[k + 1..];
      k := k + 1;
    }
    if k < |ns| {
      assert ts[k].path == ns[k].path;
    }
  }

  /** Pushes a separate subtree onto the children of `parent`. */
  method PushChild(parent: TreeNode, child: TreeNode)
    requires parent.Valid() && child.Valid() && parent.Repr !! child.Repr
    modifies parent
    ensures parent.Valid() && parent.Repr == old(parent.Repr) + child.Repr
    ensures parent.file == old(parent.file) && parent.children == old(parent.children) + [child]
    ensures child.Valid() && child.Value() == old(child.Value())
    ensures Values(parent.children, parent.Repr - {parent})
            == old(Values(parent.children, parent.Repr - {parent})) + [child.Value()]
  {
    ghost var before, region := parent.children, parent.Repr - {parent};
    ghost var ts := Values(before, region);
    parent.children := parent.children + [child];
    parent.Repr := parent.Repr + child.Repr;
    assert Forest(before, region);
    assert Values(before, region) == ts;
  }

  /** The child on the way, pushed onto the parent if it is not there yet. */
  method GetChild(parent: TreeNode, parts: Parts, i: nat) returns (child: TreeNode, k: nat)
    requires parent.Valid() && i < |parts|
    modifies parent
    ensures parent.Valid() && fresh(parent.Repr - old(parent.Repr)) && old(parent.Repr) <= parent.Repr
    ensures parent.file == old(parent.file)
    ensures k < |parent.children| && child == parent.children[k] && child.Valid()
    ensures var ts := old(Values(parent.children, parent.Repr - {parent}));
      && k == FindChild(ts, PathTo(parts, i))
      && child.Value() == ChildFor(ts, parts, i)
      && Values(parent.children, parent.Repr - {parent}) == (if k < |ts| then ts else ts + [child.Value()])
  {
    var path := Join(parts[..i + 1], '/');
    k := FindNode(parent.children, path, parent.Repr - {parent});
    if k < |parent.children| {
      child := parent.children[k];
    } else {
      child := new TreeNode(path, parts[i]);
      PushChild(parent, child);
    }
  }

  /** The children of `parent` other than `k` are separate trees with these values. */
  ghost predicate Others(parent: TreeNode, k: nat, rest: seq<Tree>)
    reads parent, parent.children, set n, o | n in parent.children && o in n.Repr :: o
  {
    && k < |parent.children| == |rest|
    && (forall j | 0 <= j < |rest| && j != k ::
          && parent.children[j] in parent.Repr && parent.children[j].Repr <= parent.Repr - {parent}
          && parent.children[j].Valid() && parent.children[j].Value() == rest[j]
          && parent.children[j].Repr !! parent.children[k].Repr)
    && (forall i, j | 0 <= i < j < |rest| && i != k && j != k ::
          parent.children[i].Repr !! parent.children[j].Repr)
  }

  /** When the subtree of child `k` alone has changed, the parent takes its nodes as its own again. */
  method Reclaim(parent: TreeNode, k: nat, ghost rest: seq<Tree>)
    requires Others(parent, k, rest) && parent in parent.Repr
    requires parent !in parent.children[k].Repr && parent.children[k].Valid()
    modifies parent`Repr
    ensures parent.Repr == old(parent.Repr) + parent.children[k].Repr
    ensures parent.Valid() && parent.children[k].Value() == old(parent.children[k].Value())
    ensures Values(parent.children, parent.Repr - {parent}) == rest[k := parent.children[k].Value()]
  {
    parent.Repr := parent.Repr + parent.children[k].Repr;
  }

  method SetFile(node: TreeNode, f: File)
    requires node.Valid()
    modifies node`file
    ensures node.Valid() && node.Value() == old(node.Value()).(file := Some(f))
  {
    node.file := Some(f);
  }

  /** Adding the child on the way, if it is missing, and walking on below it is the insertion. */
  lemma InsertAt(ts: seq<Tree>, grown: seq<Tree>, k: nat, parts: Parts, i: nat, f: File)
    requires i < |parts| && k == FindChild(ts, PathTo(parts, i))
    requires grown == if k < |ts| then ts else ts + [ChildFor(ts, parts, i)]
    ensures k < |grown| && grown[k := Descend(grown[k], parts, i, f)] == Insert(ts, parts, i, f)
  {
    var node := Descend(ChildFor(ts, parts, i), parts, i, f);
    assert node.path == PathTo(parts, i);
    assert Insert(ts, parts, i, f) == PutChild(ts, node);
  }

  /** Walks down from part `i` and sets the file on the last node, as the inner loop does step by step. */
  method AddFile(parent: TreeNode, parts: Parts, i: nat, f: File)
    requires parent.Valid() && i < |parts|
    modifies parent.Repr
    ensures parent.Valid() && fresh(parent.Repr - old(parent.Repr)) && parent.file == old(parent.file)
    ensures Values(parent.children, parent.Repr - {parent})
            == Insert(old(Values(parent.children, parent.Repr - {parent})), parts, i, f)
    decreases |parts| - i, 2
  {
    ghost var ts := Values(parent.children, parent.Repr - {parent});
    var child, k := GetChild(parent, parts, i);
    InsertAt(ts, Values(parent.children, parent.Repr - {parent}), k, parts, i, f);
    UpdateChild(parent, k, parts, i, f);
  }

  /** Walks on below child `k` of the parent. */
  method UpdateChild(parent: TreeNode, k: nat, parts: Parts, i: nat, f: File)
    requires parent.Valid() && k < |parent.children| && i < |parts|
    modifies parent.Repr
    ensures parent.Valid() && fresh(parent.Repr - old(parent.Repr)) && parent.file == old(parent.file)
    ensures var ts := old(Values(parent.children, parent.Repr - {parent}));
      Values(parent.children, parent.Repr - {parent}) == ts[k := Descend(ts[k], parts, i, f)]
    decreases |parts| - i, 1
  {
    ghost var rest := Values(parent.children, parent.Repr - {parent});
    WalkOn(parent.children[k], parts, i, f);
    assert Others(parent, k, rest);
    Reclaim(parent, k, rest);
  }

  /** The rest of the walk below the node of part `i`. */
  method WalkOn(child: TreeNode, parts: Parts, i: nat, f: File)
    requires child.Valid() && i < |parts|
    modifies child.Repr
    ensures child.Valid() && fresh(child.Repr - old(child.Repr))
    ensures child.Value() == Descend(old(child.Value()), parts, i, f)
    decreases |parts| - i, 0
  {
    if i == |parts| - 1 {
      SetFile(child, f);
    } else {
      AddFile(child, parts, i + 1, f);
    }
  }

  /** Adds the files one after another under an empty root. */
  method BuildTree(files: seq<File>) returns (root: TreeNode)
    ensures root.Valid() && fresh(root.Repr) && Values(root.children, root.Repr - {root}) == Build(files)
  {
    root := new TreeNode("", "");
    for n := 0 to |files|
      invariant root.Valid() && fresh(root.Repr)
      invariant Values(root.children, root.Repr - {root}) == Build(files[..n])
    {
      BuildNext(files, n);
      AddFile(root, Split(files[n].path, '/'), 0, files[n]);
    }
    assert files[..|files|] == files;
  }

  // ---------------------------------------------------------------- sorting

  /** Where a tree goes in a sorted list. */
  function Slot(t: Tree, sorted: seq<Tree>, leq: Order): (k: nat)
    ensures k <= |sorted|
  {
    if sorted == [] || Before(t, sorted[0], leq) then 0 else 1 + Slot(t, sorted[1..], leq)
  }

  lemma {:induction false} SlotIsInsertion(t: Tree, sorted: seq<Tree>, leq: Order)
    ensures var k := Slot(t, sorted, leq); SortedInsert(t, sorted, leq) == sorted[..k] + [t] + sorted[k..]
    decreases |sorted|
  {
    if sorted != [] && !Before(t, sorted[0], leq) {
      SlotIsInsertion(t, sorted[1..], leq);
    }
  }

  method FindSlot(n: TreeNode, sorted: seq<TreeNode>, leq: Order, ghost region: set<TreeNode>) returns (k: nat)
    requires n.Valid() && Forest(sorted, region)
    ensures k == Slot(n.Value(), Values(sorted, region), leq) <= |sorted|
  {
    k := 0;
    ghost var ts, t := Values(sorted, region), n.Value();
    while k < |sorted| && !(if n.file.None? != sorted[k].file.None? then n.file.None? else leq(n.name, sorted[k].name))
      invariant k <= |sorted| && Slot(t, ts, leq) == k + Slot(t, ts[k..], leq)
    {
      assert ts[k] == sorted[k].Value() && ts[k..][1..] == ts[k + 1..];
      k := k + 1;
    }
    assert k < |sorted| ==> ts[k] == sorted[k].Value();
  }

  /** Separate trees stay so in another order. */
  lemma Rearranged(ns: seq<TreeNode>, r: seq<TreeNode>, from: seq<nat>, region: set<TreeNode>)
    requires Forest(ns, region) && |from| == |r|
    requires forall j | 0 <= j < |r| :: from[j] < |ns| && r[j] == ns[from[j]]
    requires forall i, j | 0 <= i < j < |r| :: from[i] != from[j]
    ensures Forest(r, region)
  {
    forall i, j | 0 <= i < j < |r| ensures r[i].Repr !! r[j].Repr {
      assert from[i] < from[j] || from[j] < from[i];
    }
  }

  lemma ForestInsert(n: TreeNode, sorted: seq<TreeNode>, k: nat, region: set<TreeNode>)
    requires Forest([n] + sorted, region) && k <= |sorted|
    ensures Forest(sorted[..k] + [n] + sorted[k..], region)
  {
    var from := seq(|sorted| + 1, j requires 0 <= j => if j < k then j + 1 else if j == k then 0 else j);
    Rearranged([n] + sorted, sorted[..k] + [n] + sorted[k..], from, region);
  }

  lemma ValuesInsert(n: TreeNode, sorted: seq<TreeNode>, k: nat, region: set<TreeNode>)
    requires Forest(sorted, region) && k <= |sorted| && n.Valid()
    requires Forest(sorted[..k] + [n] + sorted[k..], region)
    ensures var ts := Values(sorted, region);
      Values(sorted[..k] + [n] + sorted[k..], region) == ts[..k] + [n.Value()] + ts[k..]
  {
  }

  lemma ForestTail(ns: seq<TreeNode>, region: set<TreeNode>)
    requires Forest(ns, region) && ns != []
    ensures Forest(ns[1..], region) && Values(ns[1..], region) == Values(ns, region)[1..]
    ensures forall n | n in ns[1..] :: n.Repr !! ns[0].Repr
  {
    assert forall j | 0 <= j < |ns| - 1 :: ns[1..][j] == ns[j + 1];
  }

  lemma ForestCons(n: TreeNode, ns: seq<TreeNode>, region: set<TreeNode>)
    requires Forest(ns, region) && n in region && n.Repr <= region && n.Valid()
    requires forall m | m in ns :: m.Repr !! n.Repr
    ensures Forest([n] + ns, region)
  {
    assert forall j | 0 <= j < |ns| :: ([n] + ns)[j + 1] == ns[j] && ns[j] in ns;
  }

  lemma InsertedAtSlot(n: TreeNode, sorted: seq<TreeNode>, k: nat, leq: Order, region: set<TreeNode>)
    requires Forest(sorted, region) && n in region && n.Repr <= region && n.Valid()
    requires forall m | m in sorted :: m.Repr !! n.Repr
    requires k == Slot(n.Value(), Values(sorted, region), leq) <= |sorted|
    ensures var r := sorted[..k] + [n] + sorted[k..];
      Forest(r, region) && Values(r, region) == SortedInsert(n.Value(), Values(sorted, region), leq)
  {
    ForestCons(n, sorted, region);
    ForestInsert(n, sorted, k, region);
    ValuesInsert(n, sorted, k, region);
    SlotIsInsertion(n.Value(), Values(sorted, region), leq);
  }

  method InsertNode(n: TreeNode, sorted: seq<TreeNode>, leq: Order, ghost region: set<TreeNode>)
    returns (r: seq<TreeNode>)
    requires Forest(sorted, region) && n in region && n.Repr <= region && n.Valid()
    requires forall m | m in sorted :: m.Repr !! n.Repr
    ensures Forest(r, region) && Values(r, region) == SortedInsert(n.Value(), Values(sorted, region), leq)
    ensures forall m | m in r :: m == n || m in sorted
  {
    var k := FindSlot(n, sorted, leq, region);
    InsertedAtSlot(n, sorted, k, leq, region);
    r := sorted[..k] + [n] + sorted[k..];
  }

  /** Sorts separate trees. */
  method SortNodes(ns: seq<TreeNode>, leq: Order, ghost region: set<TreeNode>) returns (r: seq<TreeNode>)
    requires Forest(ns, region)
    ensures Forest(r, region) && Values(r, region) == Sort(Values(ns, region), leq)
    ensures forall n | n in r :: n in ns
    decreases |ns|
  {
    if ns == [] {
      return [];
    }
    ForestTail(ns, region);
    var rest := SortNodes(ns[1..], leq, region);
    r := InsertNode(ns[0], rest, leq, region);
  }

  // ---------------------------------------------------------------- compressing

  /** The copy of `child` that takes the place of its only parent. */
  method CopyNode(child: TreeNode, name: string) returns (r: TreeNode)
    requires child.Valid()
    ensures r.Valid() && fresh(r) && r.Repr == child.Repr - {child} + {r}
    ensures r.Value() == child.Value().(name := name)
  {
    r := new TreeNode(child.path, name);
    r.file, r.children := child.file, child.children;
    r.Repr := child.Repr - {child} + {r};
    assert Forest(r.children, child.Repr - {child});
    assert Values(r.children, r.Repr - {r}) == Values(child.children, child.Repr - {child});
  }

  /** A directory whose only child is a directory gives way to it. */
  method MergeNode(node: TreeNode) returns (r: TreeNode)
    requires node.Valid()
    ensures r.Valid() && fresh(r.Repr - node.Repr) && r.Value() == Merge(node.Value())
  {
    ghost var ts := node.Value().children;
    if node.file.None? && |node.children| == 1 && node.children[0].file.None? {
      assert ts[0] == node.children[0].Value();
      r := CopyNode(node.children[0], node.name + "/" + node.children[0].name);
    } else {
      assert |ts| == 1 ==> ts[0] == node.children[0].Value();
      r := node;
    }
  }

  /** Gives a node other separate children. */
  method SetChildren(node: TreeNode, children: seq<TreeNode>, ghost region: set<TreeNode>)
    requires Forest(children, region) && node !in region
    modifies node
    ensures node.Valid() && node.Repr == region + {node} && node.file == old(node.file)
    ensures node.Value() == Node(node.path, node.name, node.file, old(Values(children, region)))
  {
    node.children := children;
    node.Repr := region + {node};
    assert Forest(children, region);
    assert node.Repr - {node} == region;
  }

  lemma ForestApart(ns: seq<TreeNode>, region: set<TreeNode>)
    requires Forest(ns, region) && ns != []
    ensures Forest(ns[1..], region - ns[0].Repr)
    ensures Values(ns[1..], region - ns[0].Repr) == Values(ns, region)[1..]
  {
    ForestTail(ns, region);
    assert forall j | 0 <= j < |ns| - 1 :: ns[1..][j] in ns[1..];
  }

  lemma ForestWiden(ns: seq<TreeNode>, region: set<TreeNode>, wider: set<TreeNode>)
    requires Forest(ns, region) && region <= wider
    ensures Forest(ns, wider) && Values(ns, wider) == Values(ns, region)
  {
  }

  lemma ValuesCons(n: TreeNode, ns: seq<TreeNode>, region: set<TreeNode>)
    requires Forest([n] + ns, region) && Forest(ns, region) && n.Valid()
    ensures Values([n] + ns, region) == [n.Value()] + Values(ns, region)
  {
    var all := [n] + ns;
    var vs, ws := Values(all, region), Values(ns, region);
    assert vs[0] == all[0].Value() == n.Value();
    forall j | 0 <= j < |ws| ensures vs[j + 1] == ws[j] {
      assert all[j + 1] == ns[j];
    }
    ConsIs(vs, n.Value(), ws);
  }

  lemma ForestWith(n: TreeNode, ns: seq<TreeNode>, region: set<TreeNode>)
    requires Forest(ns, region) && n.Valid() && n.Repr !! region
    ensures Forest([n] + ns, region + n.Repr)
    ensures Values([n] + ns, region + n.Repr) == [n.Value()] + Values(ns, region)
  {
    ForestWiden(ns, region, region + n.Repr);
    assert forall m | m in ns :: m.Repr <= region;
    ForestCons(n, ns, region + n.Repr);
    ValuesCons(n, ns, region + n.Repr);
  }

  /** Compresses separate trees one after another. */
  method CompressNodes(ns: seq<TreeNode>, leq: Order, ghost region: set<TreeNode>)
    returns (r: seq<TreeNode>, ghost region': set<TreeNode>)
    requires Forest(ns, region)
    modifies region
    ensures fresh(region' - region) && Forest(r, region')
    ensures Values(r, region') == CompressAll(old(Values(ns, region)), leq)
    decreases region, 1, |ns|
  {
    if ns == [] {
      return [], {};
    }
    ForestApart(ns, region);
    ghost var apart := region - ns[0].Repr;
    var head := CompressTree(ns[0], leq);
    r, region' := CompressRest(head, ns[1..], leq, apart);
  }

  /** Goes on with the trees after one that is done. */
  method CompressRest(head: TreeNode, ns: seq<TreeNode>, leq: Order, ghost apart: set<TreeNode>)
    returns (r: seq<TreeNode>, ghost region': set<TreeNode>)
    requires Forest(ns, apart) && head.Valid() && head.Repr !! apart
    modifies apart
    ensures fresh(region' - apart - head.Repr) && Forest(r, region')
    ensures Values(r, region') == [old(head.Value())] + CompressAll(old(Values(ns, apart)), leq)
    decreases apart, 2, |ns|
  {
    var tail, rest := CompressNodes(ns, leq, apart);
    ForestWith(head, tail, rest);
    return [head] + tail, rest + head.Repr;
  }

  /** Sorts the compressed children of a node and then compresses the node itself. */
  method FinishNode(node: TreeNode, below: seq<TreeNode>, leq: Order, ghost region: set<TreeNode>) returns (r: TreeNode)
    requires Forest(below, region) && node !in region
    modifies node
    ensures r.Valid() && fresh(r.Repr - region - {node})
    ensures r.Value() == Merge(Node(node.path, node.name, old(node.file), Sort(old(Values(below, region)), leq)))
  {
    var sorted := SortNodes(below, leq, region);
    SetChildren(node, sorted, region);
    r := MergeNode(node);
  }

  /** Compresses a tree in place: its children first, then sorted, then the node itself. */
  method CompressTree(node: TreeNode, leq: Order) returns (r: TreeNode)
    requires node.Valid()
    modifies node.Repr
    ensures r.Valid() && fresh(r.Repr - old(node.Repr))
    ensures r.Value() == CompressNode(old(node.Value()), leq)
    decreases node.Repr, 0
  {
    var below, region := CompressNodes(node.children, leq, node.Repr - {node});
    r := FinishNode(node, below, leq, region);
  }

  /** The top level of the review: the compressed children of the root, sorted. */
  method FileTreeOf(files: seq<File>, leq: Order) returns (top: seq<TreeNode>, ghost region: set<TreeNode>)
    ensures Forest(top, region) && Values(top, region) == Shown(files, leq)
  {
    var root := BuildTree(files);
    var below, apart := CompressNodes(root.children, leq, root.Repr - {root});
    top := SortNodes(below, leq, apart);
    region := apart;
  }
}
