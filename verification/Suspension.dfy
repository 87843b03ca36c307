/**
 * Which nodes a dialog suspends when it opens: every sibling of the dialog and of its ancestors up to the
 * body. A node is named by its path of child positions from the body, which is the empty path.
 */
module Suspension {
  import opened Sequences

  type Path = seq<nat>

  /** How many element children each node has, and which elements are HTML elements. */
  datatype Shape = Shape(count: Path -> nat, html: Path -> bool)

  ghost predicate InPage(shape: Shape, node: Path) {
    forall k | 0 <= k < |node| :: node[k] < shape.count(node[..k])
  }

  /** The HTML children of `parent` numbered from `i` on, without the one on the branch. */
  function SiblingsFrom(shape: Shape, parent: Path, own: nat, i: nat): seq<Path>
    decreases shape.count(parent) - i
  {
    if i >= shape.count(parent) then []
    else
      (if i != own && shape.html(parent + [i]) then [parent + [i]] else []) + SiblingsFrom(shape, parent, own, i + 1)
  }

  function Siblings(shape: Shape, branch: Path): seq<Path>
    requires branch != []
  {
    SiblingsFrom(shape, branch[..|branch| - 1], branch[|branch| - 1], 0)
  }

  /** From the dialog upwards, level by level. */
  function Suspended(shape: Shape, branch: Path): seq<Path> {
    if branch == [] then [] else Siblings(shape, branch) + Suspended(shape, branch[..|branch| - 1])
  }

  /** Adds the children of `parent` off the branch. */
  method SuspendSiblings(shape: Shape, parent: Path, own: nat, nodes: seq<Path>) returns (more: seq<Path>)
    ensures more == nodes + SiblingsFrom(shape, parent, own, 0)
  {
    more := nodes;
    ghost var all := nodes + SiblingsFrom(shape, parent, own, 0);
    for i := 0 to shape.count(parent)
      invariant more + SiblingsFrom(shape, parent, own, i) == all
    {
      if i != own && shape.html(parent + [i]) {
        more := more + [parent + [i]];
      }
    }
  }

  lemma Joined(before: seq<Path>, level: seq<Path>, above: seq<Path>)
    ensures before + (level + above) == before + level + above
  {
  }

  lemma SuspendedUp(shape: Shape, branch: Path, before: seq<Path>, all: seq<Path>)
    requires branch != [] && before + Suspended(shape, branch) == all
    ensures before + Siblings(shape, branch) + Suspended(shape, branch[..|branch| - 1]) == all
  {
    Joined(before, Siblings(shape, branch), Suspended(shape, branch[..|branch| - 1]));
  }

  method SuspendAround(shape: Shape, dialog: Path) returns (nodes: seq<Path>)
    requires dialog != []
    ensures nodes == Suspended(shape, dialog)
  {
    nodes := [];
    ghost var all := Suspended(shape, dialog);
    var branch := dialog;
    while branch != []
      invariant nodes + Suspended(shape, branch) == all
      decreases |branch|
    {
      var parent, own := branch[..|branch| - 1], branch[|branch| - 1];
      SuspendedUp(shape, branch, nodes, all);
      nodes := SuspendSiblings(shape, parent, own, nodes);
      branch := parent;
    }
  }

  // ---------------------------------------------------------------- exactly the rest of the page

  lemma {:induction false} SiblingsAre(shape: Shape, parent: Path, own: nat, i: nat, node: Path)
    ensures node in SiblingsFrom(shape, parent, own, i)
            <==> |node| == |parent| + 1 && node[..|parent|] == parent
                 && node[|parent|] != own && i <= node[|parent|] < shape.count(parent) && shape.html(node)
    decreases shape.count(parent) - i
  {
    if i < shape.count(parent) {
      SiblingsAre(shape, parent, own, i + 1, node);
      assert (parent + [i])[..|parent|] == parent;
      if |node| == |parent| + 1 && node[..|parent|] == parent && node[|parent|] == i {
        assert node == parent + [i];
      }
    }
  }

  /** The node is an HTML element and leaves the way from the body to the dialog in its last step. */
  ghost predicate StepsAside(shape: Shape, dialog: Path, node: Path) {
    && 0 < |node| <= |dialog|
    && var n := |node| - 1;
      node[..n] == dialog[..n] && node[n] != dialog[n] && node[n] < shape.count(dialog[..n]) && shape.html(node)
  }

  lemma StepsAsideUp(shape: Shape, parent: Path, own: nat, node: Path)
    ensures StepsAside(shape, parent + [own], node)
            <==> node in SiblingsFrom(shape, parent, own, 0) || StepsAside(shape, parent, node)
  {
    SiblingsAre(shape, parent, own, 0, node);
    if 0 < |node| <= |parent| + 1 {
      assert (parent + [own])[..|node| - 1] == parent[..|node| - 1];
      assert |node| == |parent| + 1 ==> parent[..|node| - 1] == parent;
    }
  }

  /** Exactly the nodes that step aside are suspended. */
  lemma {:induction false} SuspendedAre(shape: Shape, dialog: Path, node: Path)
    ensures node in Suspended(shape, dialog) <==> StepsAside(shape, dialog, node)
    decreases |dialog|
  {
    if dialog != [] {
      var parent, own := dialog[..|dialog| - 1], dialog[|dialog| - 1];
      SuspendedAre(shape, parent, node);
      StepsAsideUp(shape, parent, own, node);
      assert parent + [own] == dialog;
    }
  }

  lemma DistinctConcat(a: seq<Path>, b: seq<Path>)
    requires Distinct(a) && Distinct(b) && forall x, y | x in a && y in b :: x != y
    ensures Distinct(a + b)
  {
    forall i, j | 0 <= i < j < |a + b| ensures (a + b)[i] != (a + b)[j] {
      if i < |a| <= j {
        assert a[i] in a && b[j - |a|] in b;
      }
    }
  }

  lemma {:induction false} SiblingsDistinct(shape: Shape, parent: Path, own: nat, i: nat)
    ensures Distinct(SiblingsFrom(shape, parent, own, i))
    decreases shape.count(parent) - i
  {
    if i < shape.count(parent) {
      SiblingsDistinct(shape, parent, own, i + 1);
      SiblingsAre(shape, parent, own, i + 1, parent + [i]);
    }
  }

  /** No node is suspended twice by one dialog. */
  lemma {:induction false} SuspendedDistinct(shape: Shape, dialog: Path)
    ensures Distinct(Suspended(shape, dialog))
    decreases |dialog|
  {
    if dialog != [] {
      var parent, own := dialog[..|dialog| - 1], dialog[|dialog| - 1];
      SiblingsDistinct(shape, parent, own, 0);
      SuspendedDistinct(shape, parent);
      forall a, b | a in Siblings(shape, dialog) && b in Suspended(shape, parent) ensures a != b {
        SiblingsAre(shape, parent, own, 0, a);
        SuspendedAre(shape, parent, b);
      }
      DistinctConcat(Siblings(shape, dialog), Suspended(shape, parent));
    }
  }

  /** The node or one of its ancestors is suspended: it cannot be reached. */
  ghost predicate Cut(shape: Shape, dialog: Path, node: Path) {
    exists k :: 0 <= k <= |node| && node[..k] in Suspended(shape, dialog)
  }

  /** Where two paths part. */
  lemma {:induction false} Parting(a: Path, b: Path) returns (k: nat)
    requires !(a <= b) && !(b <= a)
    ensures k < |a| && k < |b| && a[..k] == b[..k] && a[k] != b[k]
  {
    if a[0] != b[0] {
      k := 0;
    } else {
      var m := Parting(a[1..], b[1..]);
      k := m + 1;
      forall i | 0 <= i < k ensures a[i] == b[i] {
        if i > 0 {
          assert a[i] == a[1..][..m][i - 1] && b[i] == b[1..][..m][i - 1];
        }
      }
      assert a[k] == a[1..][m] && b[k] == b[1..][m];
    }
  }

  /** Step `k` of the node is the first off the way to the dialog. */
  ghost predicate PartsAt(dialog: Path, node: Path, k: nat) {
    k < |node| && k < |dialog| && node[..k] == dialog[..k] && node[k] != dialog[k]
  }

  lemma DifferFrom(dialog: Path, node: Path, k: nat, j: nat)
    requires PartsAt(dialog, node, k) && k < j <= |node| && j <= |dialog|
    ensures node[..j] != dialog[..j]
  {
    assert node[..j][k] != dialog[..j][k];
  }

  lemma PartsOnce(dialog: Path, node: Path, k: nat, j: nat)
    requires PartsAt(dialog, node, k) && PartsAt(dialog, node, j)
    ensures k == j
  {
    if k < j {
      DifferFrom(dialog, node, k, j);
    } else if j < k {
      DifferFrom(dialog, node, j, k);
    }
  }

  lemma CutAt(shape: Shape, dialog: Path, node: Path, k: nat)
    requires InPage(shape, node) && PartsAt(dialog, node, k)
    ensures node[..k + 1] in Suspended(shape, dialog) <==> shape.html(node[..k + 1])
  {
    var top := node[..k + 1];
    SuspendedAre(shape, dialog, top);
    assert top[..|top| - 1] == node[..k];
  }

  /**
   * A node that is neither the dialog, nor an ancestor of it, nor inside it leaves the way to the dialog at one
   * element. Opening the dialog cuts the node off if and only if that element is an HTML element, and it cuts
   * off no other node.
   */
  lemma DialogIsolatesThePage(shape: Shape, dialog: Path, node: Path)
    requires InPage(shape, node)
    ensures Cut(shape, dialog, node) ==> !(node <= dialog) && !(dialog <= node)
    ensures (exists k :: PartsAt(dialog, node, k)) <==> !(node <= dialog) && !(dialog <= node)
    ensures forall k | PartsAt(dialog, node, k) :: Cut(shape, dialog, node) <==> shape.html(node[..k + 1])
  {
    forall k | PartsAt(dialog, node, k) && shape.html(node[..k + 1]) ensures Cut(shape, dialog, node) {
      CutAt(shape, dialog, node, k);
    }
    if j :| 0 <= j <= |node| && node[..j] in Suspended(shape, dialog) {
      SuspendedAre(shape, dialog, node[..j]);
      assert node[..j][..j - 1] == node[..j - 1];
      assert PartsAt(dialog, node, j - 1);
      forall k | PartsAt(dialog, node, k) ensures shape.html(node[..k + 1]) {
        PartsOnce(dialog, node, k, j - 1);
      }
    }
    if !(node <= dialog) && !(dialog <= node) {
      var k := Parting(node, dialog);
      assert PartsAt(dialog, node, k);
    }
  }

  /** On a page of HTML elements alone that is the whole rest of the page. */
  lemma HtmlPageIsIsolated(shape: Shape, dialog: Path, node: Path)
    requires InPage(shape, node) && forall path :: shape.html(path)
    ensures Cut(shape, dialog, node) <==> !(node <= dialog) && !(dialog <= node)
  {
    DialogIsolatesThePage(shape, dialog, node);
  }
}
